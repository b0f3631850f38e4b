/** Saving the address manager and loading it again. The info table goes to disk without ids, the new
    table by the position of its entries in the file; everything else is rebuilt. */
module AddrManDisk {

  import opened Basics
  import opened AddrMan
  import opened AddrManOps

  /** The fields of an entry that go to disk. */
  datatype Stored = Stored(service: Service, source: NetAddr, services: set<nat>, time: nat, lastSuccess: int, attempts: int)

  datatype Disk = Disk(version: nat, keySize: nat, nNew: int, nTried: int, uBuckets: int,
                       news: seq<Stored>, trieds: seq<Stored>, buckets: seq<seq<int>>)

  datatype Loaded = Failure(message: string) | Success(st: State)

  function StoredOf(i: Info): Stored {
    Stored(i.service, i.source, i.services, i.time, i.lastSuccess, i.attempts)
  }

  function Restored(s: Stored, inTried: bool, pos: int): Info {
    Info(s.service, s.source, s.services, s.time, 0, 0, s.lastSuccess, s.attempts, 0, inTried, pos)
  }

  // ---------------------------------------------------------------- loading

  function Enter(st: State, s: Stored, inTried: bool): State {
    var id := st.idCount;
    st.(idCount := id + 1, info := st.info[id := Restored(s, inTried, |st.random|)],
        addr := st.addr[s.service.ip := id], random := st.random + [id])
  }

  /** A new entry; one that cannot use the stored table gets the slot of its source if that is free. */
  function LoadNew(h: Hashes, st: State, s: Stored, usable: bool): State {
    var id, slot := st.idCount, NewSlot(h, s.service, s.source);
    var w := Enter(st, s, false).(nNew := st.nNew + 1);
    if usable || slot in w.newTable then w else AddRef(w, slot, id)
  }

  /** What marks a free slot. */
  const NO_ID: int := -1

  /** A tried entry, unless its slot is taken.  Its slot stays free if its id is the one that marks free
      slots, which needs a file with a negative number of new entries. */
  function LoadTried(h: Hashes, st: State, s: Stored): State {
    var id, slot := st.idCount, TriedSlot(h, s.service);
    if slot in st.triedTable then st
    else Enter(st, s, true).(nTried := st.nTried + 1, triedTable := if id == NO_ID then st.triedTable else st.triedTable[slot := id])
  }

  /** A reference of the new table, unless it is bad, its slot is taken or the entry has enough. */
  function LoadRef(h: Hashes, st: State, n: nat, bucket: nat, index: int): State {
    if !(0 <= index < n) || index !in st.info then st
    else
      var slot := NewSlotIn(h, st.info[index].service, bucket);
      if slot in st.newTable || st.info[index].refs >= MAX_REFERENCES then st else AddRef(st, slot, index)
  }

  function LoadNews(h: Hashes, news: seq<Stored>, k: nat, usable: bool): State
    requires k <= |news|
  {
    if k == 0 then Empty() else LoadNew(h, LoadNews(h, news, k - 1, usable), news[k - 1], usable)
  }

  function LoadTrieds(h: Hashes, st: State, trieds: seq<Stored>, k: nat): State
    requires k <= |trieds|
  {
    if k == 0 then st else LoadTried(h, LoadTrieds(h, st, trieds, k - 1), trieds[k - 1])
  }

  function LoadRefs(h: Hashes, st: State, n: nat, bucket: nat, indexes: seq<int>): State {
    if indexes == [] then st
    else LoadRef(h, LoadRefs(h, st, n, bucket, indexes[..|indexes| - 1]), n, bucket, indexes[|indexes| - 1])
  }

  function LoadBuckets(h: Hashes, st: State, n: nat, buckets: seq<seq<int>>, k: nat): State
    requires k <= |buckets|
  {
    if k == 0 then st else LoadRefs(h, LoadBuckets(h, st, n, buckets, k - 1), n, k - 1, buckets[k - 1])
  }

  // ---------------------------------------------------------------- loading keeps the structures

  /** New entries without a reference. */
  function Loose(info: map<int, Info>): set<int> {
    set id | id in info && !info[id].inTried && info[id].refs == 0
  }

  /** List, tables and counters agree, but entries may still lack references, and addresses may repeat. */
  ghost predicate Stocked(h: Hashes, st: State) {
    && Listed(st) && TriedOk(h, st.info, st.triedTable) && NewOk(h, st.info, st.newTable)
    && RefsOk(st.info, st.newTable, Loose(st.info)) && Counted(st.info, st.nTried, st.nNew, {})
  }

  /** All structures agree, but entries may still lack references. */
  ghost predicate Partly(h: Hashes, st: State) {
    Stocked(h, st) && Addressed(st)
  }

  /** The index holds the last entry of every address. */
  ghost predicate Latest(st: State) {
    && (forall a :: a in st.addr ==> st.addr[a] in st.info && st.info[st.addr[a]].service.ip == a)
    && (forall id :: id in st.info ==> st.info[id].service.ip in st.addr && id <= st.addr[st.info[id].service.ip])
  }

  lemma LooseJoin(info: map<int, Info>, id: int, i: Info)
    requires id !in info && i.refs == 0
    ensures Loose(info[id := i]) == if i.inTried then Loose(info) else Loose(info) + {id}
  {
    if i.inTried {
      forall j ensures j in Loose(info[id := i]) <==> j in Loose(info) {}
    } else {
      forall j ensures j in Loose(info[id := i]) <==> j in Loose(info) + {id} {}
    }
  }

  lemma LooseRef(info: map<int, Info>, id: int)
    requires id in info && info[id].refs >= 0
    ensures Loose(info[id := info[id].(refs := info[id].refs + 1)]) == Loose(info) - {id}
  {
    forall j ensures j in Loose(info[id := info[id].(refs := info[id].refs + 1)]) <==> j in Loose(info) - {id} {}
  }

  lemma EnterListed(st: State, s: Stored, inTried: bool)
    requires Listed(st)
    ensures Listed(Enter(st, s, inTried)) && st.idCount !in st.info
    ensures Latest(st) ==> Latest(Enter(st, s, inTried))
    ensures Addressed(st) && s.service.ip !in st.addr ==> Addressed(Enter(st, s, inTried))
  {
  }

  /** What loading a record keeps: the rest of the state, the last entry of every address in the index, and
      the whole index while addresses are new. */
  ghost predicate Keeps(h: Hashes, st: State, s: Stored, w: State) {
    && Stocked(h, w) && (Latest(st) ==> Latest(w))
    && (Addressed(st) && s.service.ip !in st.addr ==> Addressed(w))
  }

  lemma EnterRefs(info: map<int, Info>, t: Table, id: int, i: Info)
    requires id !in info && i.refs == 0 && RefsOk(info, t, Loose(info)) && forall s :: s in t ==> t[s] in info
    ensures RefsOk(info[id := i], t, Loose(info[id := i]))
  {
    LooseJoin(info, id, i);
    assert SlotsOf(t, id) == {};
    var w := info[id := i];
    forall j ensures j in NewIds(w) <==> j in NewIds(info) || (j == id && !i.inTried) {}
  }

  lemma EnterNewTables(h: Hashes, info: map<int, Info>, id: int, i: Info, tried: Table, newTable: Table)
    requires id !in info && !i.inTried && TriedOk(h, info, tried) && NewOk(h, info, newTable)
    ensures TriedOk(h, info[id := i], tried) && NewOk(h, info[id := i], newTable)
  {
  }

  lemma EnterTriedTables(h: Hashes, info: map<int, Info>, id: int, i: Info, tried: Table, newTable: Table)
    requires id !in info && i.inTried && TriedOk(h, info, tried) && NewOk(h, info, newTable) && TriedSlot(h, i.service) !in tried
    ensures TriedOk(h, info[id := i], tried[TriedSlot(h, i.service) := id]) && NewOk(h, info[id := i], newTable)
  {
  }

  lemma EnterCounts(info: map<int, Info>, id: int, i: Info, nTried: int, nNew: int)
    requires id !in info && Counted(info, nTried, nNew, {})
    ensures Counted(info[id := i], nTried + (if i.inTried then 1 else 0), nNew + (if i.inTried then 0 else 1), {})
  {
    var info' := info[id := i];
    forall j
      ensures j in NewIds(info') <==> j in NewIds(info) || (j == id && !i.inTried)
      ensures j in TriedIds(info') <==> j in TriedIds(info) || (j == id && i.inTried)
    {
    }
    if i.inTried {
      assert TriedIds(info') == TriedIds(info) + {id} && NewIds(info') - {} == NewIds(info) - {};
    } else {
      assert TriedIds(info') == TriedIds(info) && NewIds(info') - {} == (NewIds(info) - {}) + {id};
    }
  }

  lemma EnterNewKeeps(h: Hashes, st: State, s: Stored)
    requires Stocked(h, st)
    ensures Keeps(h, st, s, Enter(st, s, false).(nNew := st.nNew + 1))
  {
    var id, i := st.idCount, Restored(s, false, |st.random|);
    EnterListed(st, s, false);
    assert forall x :: x in st.newTable ==> st.newTable[x] in st.info;
    var w := Enter(st, s, false).(nNew := st.nNew + 1);
    SameIndex(Enter(st, s, false), w);
    hide Listed, Addressed, Latest, TriedOk, NewOk, RefsOk, Counted, Loose;
    EnterRefs(st.info, st.newTable, id, i);
    EnterNewTables(h, st.info, id, i, st.triedTable, st.newTable);
    EnterCounts(st.info, id, i, st.nTried, st.nNew);
  }

  lemma SameIndex(st: State, w: State)
    requires st.idCount == w.idCount && st.info == w.info && st.random == w.random && st.addr == w.addr
    ensures Listed(st) == Listed(w) && Addressed(st) == Addressed(w) && Latest(st) == Latest(w)
  {
  }

  lemma LoadTriedKeeps(h: Hashes, st: State, s: Stored)
    requires Stocked(h, st)
    ensures Keeps(h, st, s, LoadTried(h, st, s))
  {
    var id, i, slot := st.idCount, Restored(s, true, |st.random|), TriedSlot(h, s.service);
    if slot !in st.triedTable {
      EnterListed(st, s, true);
      assert id != NO_ID && forall x :: x in st.newTable ==> st.newTable[x] in st.info;
      var w := LoadTried(h, st, s);
      SameIndex(Enter(st, s, true), w);
      hide Listed, Addressed, Latest, TriedOk, NewOk, RefsOk, Counted, Loose;
      EnterRefs(st.info, st.newTable, id, i);
      EnterTriedTables(h, st.info, id, i, st.triedTable, st.newTable);
      EnterCounts(st.info, id, i, st.nTried, st.nNew);
    }
  }

  /** A reference more changes neither list nor index. */
  lemma AddRefIndex(st: State, slot: Slot, id: int)
    requires id in st.info
    ensures Listed(st) ==> Listed(AddRef(st, slot, id))
    ensures Latest(st) ==> Latest(AddRef(st, slot, id))
    ensures Addressed(st) ==> Addressed(AddRef(st, slot, id))
  {
  }

  lemma AddRefStocked(h: Hashes, st: State, slot: Slot, id: int)
    requires Stocked(h, st) && slot !in st.newTable && slot.bucket < NEW_BUCKETS && id in st.info && !st.info[id].inTried
    requires slot == NewSlotIn(h, st.info[id].service, slot.bucket) && st.info[id].refs < MAX_REFERENCES
    ensures Stocked(h, AddRef(st, slot, id))
    ensures Latest(st) ==> Latest(AddRef(st, slot, id))
    ensures Addressed(st) ==> Addressed(AddRef(st, slot, id))
  {
    assert st.info[id].refs >= 0;
    AddRefIndex(st, slot, id);
    hide Listed, Addressed, Latest, TriedOk, NewOk, RefsOk, Counted, Loose;
    AddRefTables(h, st, slot, id, Loose(st.info));
    SameTried(h, st, id, st.info[id].refs + 1, {});
    LooseRef(st.info, id);
  }

  lemma LoadNewKeeps(h: Hashes, st: State, s: Stored, usable: bool)
    requires Stocked(h, st)
    ensures Keeps(h, st, s, LoadNew(h, st, s, usable))
  {
    hide Stocked, Latest, Addressed;
    EnterNewKeeps(h, st, s);
    var w, slot := Enter(st, s, false).(nNew := st.nNew + 1), NewSlot(h, s.service, s.source);
    if !usable && slot !in w.newTable { AddRefStocked(h, w, slot, st.idCount); }
  }

  /** The first n entries are new ones. */
  predicate NewFirst(st: State, n: nat) {
    forall i :: 0 <= i < n ==> i in st.info && !st.info[i].inTried
  }

  /** What reading references keeps. */
  ghost predicate RefsKeep(h: Hashes, st: State, n: nat, w: State) {
    Stocked(h, w) && NewFirst(w, n) && (Latest(st) ==> Latest(w)) && (Addressed(st) ==> Addressed(w))
  }

  lemma LoadRefKeeps(h: Hashes, st: State, n: nat, bucket: nat, index: int)
    requires Stocked(h, st) && NewFirst(st, n) && bucket < NEW_BUCKETS
    ensures RefsKeep(h, st, n, LoadRef(h, st, n, bucket, index))
  {
    if 0 <= index < n {
      var slot := NewSlotIn(h, st.info[index].service, bucket);
      hide Stocked, Latest, Addressed;
      if slot !in st.newTable && st.info[index].refs < MAX_REFERENCES { AddRefStocked(h, st, slot, index); }
    }
  }

  lemma {:induction false} LoadRefsKeeps(h: Hashes, st: State, n: nat, bucket: nat, indexes: seq<int>)
    requires Stocked(h, st) && NewFirst(st, n) && bucket < NEW_BUCKETS
    ensures RefsKeep(h, st, n, LoadRefs(h, st, n, bucket, indexes))
  {
    hide Stocked, NewFirst, LoadRef, Latest, Addressed;
    if indexes != [] {
      var rest := indexes[..|indexes| - 1];
      LoadRefsKeeps(h, st, n, bucket, rest);
      LoadRefKeeps(h, LoadRefs(h, st, n, bucket, rest), n, bucket, indexes[|indexes| - 1]);
    }
  }

  lemma {:induction false} LoadBucketsKeeps(h: Hashes, st: State, n: nat, buckets: seq<seq<int>>, k: nat)
    requires Stocked(h, st) && NewFirst(st, n) && k <= |buckets| && k <= NEW_BUCKETS
    ensures RefsKeep(h, st, n, LoadBuckets(h, st, n, buckets, k))
  {
    hide Stocked, NewFirst, LoadRefs, Latest, Addressed;
    if k > 0 {
      LoadBucketsKeeps(h, st, n, buckets, k - 1);
      LoadRefsKeeps(h, LoadBuckets(h, st, n, buckets, k - 1), n, k - 1, buckets[k - 1]);
    }
  }

  // ---------------------------------------------------------------- addresses stay distinct

  function Ips(l: seq<Stored>): (r: seq<NetAddr>)
    ensures |r| == |l| && forall i :: 0 <= i < |l| ==> r[i] == l[i].service.ip
  {
    seq(|l|, i requires 0 <= i < |l| => l[i].service.ip)
  }

  /** Only the first k addresses are indexed. */
  ghost predicate Known(st: State, ips: seq<NetAddr>, k: nat) {
    k <= |ips| && forall a :: a in st.addr ==> exists i :: 0 <= i < k && ips[i] == a
  }

  lemma KnownNext(st: State, ips: seq<NetAddr>, k: nat)
    requires Known(st, ips, k) && k < |ips| && Distinct(ips)
    ensures ips[k] !in st.addr
  {
  }

  lemma KnownMore(st: State, w: State, ips: seq<NetAddr>, k: nat, id: int)
    requires Known(st, ips, k) && k < |ips| && (w.addr == st.addr || w.addr == st.addr[ips[k] := id])
    ensures Known(w, ips, k + 1)
  {
  }

  /** The index is right as long as all addresses are distinct. */
  ghost predicate IndexedSoFar(st: State, ips: seq<NetAddr>, k: nat) {
    Latest(st) && (Distinct(ips) ==> Known(st, ips, k) && Addressed(st))
  }

  lemma IndexedMore(h: Hashes, st: State, s: Stored, w: State, ips: seq<NetAddr>, k: nat, id: int)
    requires Keeps(h, st, s, w) && IndexedSoFar(st, ips, k) && k < |ips| && ips[k] == s.service.ip
    requires w.addr == st.addr || w.addr == st.addr[s.service.ip := id]
    ensures IndexedSoFar(w, ips, k + 1)
  {
    if Distinct(ips) {
      KnownNext(st, ips, k);
      KnownMore(st, w, ips, k, id);
    }
    hide Stocked, Latest, Addressed, Known, Distinct;
  }

  /** The first k entries loaded as new ones. */
  ghost predicate NewsIn(h: Hashes, st: State, ips: seq<NetAddr>, k: nat) {
    Stocked(h, st) && IndexedSoFar(st, ips, k) && NewFirst(st, k) && st.idCount == st.nNew == k
  }

  lemma NewsInStep(h: Hashes, st: State, ips: seq<NetAddr>, k: nat, s: Stored, usable: bool)
    requires NewsIn(h, st, ips, k) && k < |ips| && ips[k] == s.service.ip
    ensures NewsIn(h, LoadNew(h, st, s, usable), ips, k + 1)
  {
    var w := LoadNew(h, st, s, usable);
    assert NewFirst(w, k + 1);
    hide Stocked, IndexedSoFar, NewFirst, Keeps;
    LoadNewKeeps(h, st, s, usable);
    IndexedMore(h, st, s, w, ips, k, k);
    KeepsStock(h, st, s, w);
  }

  lemma KeepsStock(h: Hashes, st: State, s: Stored, w: State)
    requires Keeps(h, st, s, w)
    ensures Stocked(h, w)
  {
  }

  lemma NoNews(h: Hashes, ips: seq<NetAddr>)
    ensures NewsIn(h, Empty(), ips, 0)
  {
    EmptyInv(h);
    assert Loose(map[]) == {};
  }

  lemma {:induction false} LoadNewsKeeps(h: Hashes, news: seq<Stored>, ips: seq<NetAddr>, k: nat, usable: bool)
    requires k <= |news| <= |ips| && forall i :: 0 <= i < |news| ==> ips[i] == news[i].service.ip
    ensures NewsIn(h, LoadNews(h, news, k, usable), ips, k)
  {
    hide NewsIn, LoadNew;
    if k == 0 {
      NoNews(h, ips);
    } else {
      LoadNewsKeeps(h, news, ips, k - 1, usable);
      NewsInStep(h, LoadNews(h, news, k - 1, usable), ips, k - 1, news[k - 1], usable);
    }
  }

  /** n new entries and some of k tried ones loaded. */
  ghost predicate TriedsIn(h: Hashes, st: State, ips: seq<NetAddr>, n: nat, k: nat) {
    Stocked(h, st) && IndexedSoFar(st, ips, n + k) && NewFirst(st, n) && st.idCount >= n
  }

  lemma TriedsInStep(h: Hashes, st: State, ips: seq<NetAddr>, n: nat, k: nat, s: Stored)
    requires TriedsIn(h, st, ips, n, k) && n + k < |ips| && ips[n + k] == s.service.ip
    ensures TriedsIn(h, LoadTried(h, st, s), ips, n, k + 1)
  {
    var w := LoadTried(h, st, s);
    hide Stocked, IndexedSoFar, NewFirst, Keeps;
    StillFirst(h, st, s, n);
    LoadTriedKeeps(h, st, s);
    IndexedMore(h, st, s, w, ips, n + k, st.idCount);
    KeepsStock(h, st, s, w);
  }

  lemma StillFirst(h: Hashes, st: State, s: Stored, n: nat)
    requires NewFirst(st, n) && st.idCount >= n
    ensures NewFirst(LoadTried(h, st, s), n)
  {
  }

  lemma {:induction false} LoadTriedsKeeps(h: Hashes, st: State, ips: seq<NetAddr>, n: nat, trieds: seq<Stored>, k: nat)
    requires TriedsIn(h, st, ips, n, 0) && k <= |trieds| && n + |trieds| <= |ips|
    requires forall i :: 0 <= i < |trieds| ==> ips[n + i] == trieds[i].service.ip
    ensures TriedsIn(h, LoadTrieds(h, st, trieds, k), ips, n, k)
  {
    hide TriedsIn, LoadTried;
    if k > 0 {
      LoadTriedsKeeps(h, st, ips, n, trieds, k - 1);
      TriedsInStep(h, LoadTrieds(h, st, trieds, k - 1), ips, n, k - 1, trieds[k - 1]);
    }
  }

  // ---------------------------------------------------------------- pruning

  lemma DeleteListed(st: State, id: int)
    requires Listed(st) && id in st.info
    ensures Listed(Delete(st, id))
  {
    hide Listed;
    SwapLast(st, id);
    SwapListed(st, st.info[id].randomPos, |st.random| - 1);
    DropListed(SwapRandom(st, st.info[id].randomPos, |st.random| - 1), id);
  }

  /** Deletes an entry that ended up without a reference. */
  ghost function PruneOne(st: State, id: int): (w: State)
    requires Listed(st)
    ensures Listed(w)
  {
    if id in st.info && !st.info[id].inTried && st.info[id].refs == 0 then DeleteListed(st, id); Delete(st, id) else st
  }

  /** Entries below k that ended up without a reference are deleted. */
  ghost function Prune(st: State, k: nat): (w: State)
    requires Listed(st)
    ensures Listed(w)
  {
    if k == 0 then st else PruneOne(Prune(st, k - 1), k - 1)
  }

  lemma PruneNone(st: State)
    requires Listed(st)
    ensures Prune(st, 0) == st
  {
  }

  lemma PruneMore(st: State, k: nat)
    requires Listed(st)
    ensures var w := Prune(st, k);
      Prune(st, k + 1) == if k in w.info && !w.info[k].inTried && w.info[k].refs == 0 then Delete(w, k) else w
  {
    hide Listed, Delete;
  }

  lemma LooseDelete(st: State, id: int)
    requires Listed(st) && id in st.info
    ensures Loose(Delete(st, id).info) == Loose(st.info) - {id}
  {
    DeleteFrame(st, id);
    hide Delete, Listed;
    forall j ensures j in Loose(Delete(st, id).info) <==> j in Loose(st.info) - {id} {}
  }

  ghost predicate NoneLoose(info: map<int, Info>, k: nat) {
    forall j :: 0 <= j < k ==> j !in Loose(info)
  }

  lemma DeleteTables(h: Hashes, st: State, k: int, loose: set<int>)
    requires Listed(st) && k in st.info && k in loose && TriedOk(h, st.info, st.triedTable) && NewOk(h, st.info, st.newTable)
    requires RefsOk(st.info, st.newTable, loose) && Counted(st.info, st.nTried, st.nNew, {})
    ensures var w := Delete(st, k);
      && TriedOk(h, w.info, w.triedTable) && NewOk(h, w.info, w.newTable)
      && RefsOk(w.info, w.newTable, loose - {k}) && Counted(w.info, w.nTried, w.nNew, {})
  {
    hide Listed, TriedOk, NewOk, RefsOk, Counted, SameRoles;
    SwapLast(st, k);
    var w := SwapRandom(st, st.info[k].randomPos, |st.random| - 1);
    SwapRoles(st, st.info[k].randomPos, |st.random| - 1);
    SameTables(h, st, w, loose, {});
    DropTables(h, w, k, loose, {});
  }

  lemma PruneStep(h: Hashes, st: State, k: nat)
    requires Stocked(h, st) && NoneLoose(st.info, k) && k in st.info && !st.info[k].inTried && st.info[k].refs == 0
    ensures Stocked(h, Delete(st, k)) && NoneLoose(Delete(st, k).info, k + 1)
  {
    assert k in Loose(st.info);
    hide Listed, TriedOk, NewOk, RefsOk, Counted, Loose, Delete;
    LooseDelete(st, k);
    DeleteListed(st, k);
    DeleteTables(h, st, k, Loose(st.info));
  }

  lemma NoneMore(info: map<int, Info>, k: nat)
    requires NoneLoose(info, k) && !(k in info && !info[k].inTried && info[k].refs == 0)
    ensures NoneLoose(info, k + 1)
  {
  }

  lemma {:induction false} PruneKeeps(h: Hashes, st: State, k: nat)
    requires Stocked(h, st)
    ensures Listed(st) && Stocked(h, Prune(st, k)) && NoneLoose(Prune(st, k).info, k)
  {
    hide Stocked, NoneLoose, Delete, Listed, Prune;
    StockedListed(h, st);
    if k == 0 {
      NoneBelow(st.info);
      PruneNone(st);
    } else {
      PruneKeeps(h, st, k - 1);
      PruneMore(st, k - 1);
      var w := Prune(st, k - 1);
      if k - 1 in w.info && !w.info[k - 1].inTried && w.info[k - 1].refs == 0 {
        PruneStep(h, w, k - 1);
      } else {
        NoneMore(w.info, k - 1);
      }
    }
  }

  lemma StockedListed(h: Hashes, st: State)
    requires Stocked(h, st)
    ensures Listed(st) && st.idCount >= 0
  {
  }

  lemma NoneBelow(info: map<int, Info>)
    ensures NoneLoose(info, 0)
  {
  }

  lemma {:induction false} PruneCount(st: State, k: nat)
    requires Listed(st)
    ensures Prune(st, k).idCount == st.idCount
  {
    if k > 0 {
      PruneCount(st, k - 1);
      hide Listed;
    }
  }

  lemma PrunedWhole(h: Hashes, st: State, k: nat)
    requires Stocked(h, st) && NoneLoose(st.info, k) && k >= st.idCount
    ensures Whole(h, st) <==> Addressed(st)
  {
    assert forall j :: j in Loose(st.info) ==> j in st.info && 0 <= j < k;
    assert Loose(st.info) == {};
  }

  // ---------------------------------------------------------------- repeated addresses

  function GoneBelow(info: map<int, Info>, k: nat): set<int> {
    set j | j in Loose(info) && j < k
  }

  function IpsOf(info: map<int, Info>, ids: set<int>): set<NetAddr> {
    set j | j in ids && j in info :: info[j].service.ip
  }

  /** What pruning leaves: the other entries, and an index without the addresses of those that went. */
  ghost predicate PrunedTo(st: State, gone: set<int>, w: State) {
    && (forall j :: j in w.info <==> j in st.info && j !in gone)
    && (forall j :: j in w.info ==> w.info[j] == st.info[j].(randomPos := w.info[j].randomPos))
    && w.addr == st.addr - IpsOf(st.info, gone)
  }

  lemma PrunedMore(st: State, gone: set<int>, w: State, id: int)
    requires Listed(w) && PrunedTo(st, gone, w) && id in w.info && gone <= st.info.Keys
    ensures PrunedTo(st, gone + {id}, Delete(w, id))
  {
    DeleteFrame(w, id);
    var x := Delete(w, id);
    assert x.addr == w.addr - {w.info[id].service.ip};
    hide Delete, Listed;
    assert IpsOf(st.info, gone + {id}) == IpsOf(st.info, gone) + {st.info[id].service.ip};
    assert st.addr - IpsOf(st.info, gone) - {st.info[id].service.ip} == st.addr - IpsOf(st.info, gone + {id});
  }

  lemma {:induction false} PruneIs(st: State, k: nat)
    requires Listed(st)
    ensures PrunedTo(st, GoneBelow(st.info, k), Prune(st, k))
  {
    hide Listed, Delete, GoneBelow, PrunedTo, Prune, Loose;
    if k == 0 {
      PruneNone(st);
      NoneGone(st);
    } else {
      PruneIs(st, k - 1);
      PruneMore(st, k - 1);
      GoneMore(st.info, k - 1);
      var w, gone := Prune(st, k - 1), GoneBelow(st.info, k - 1);
      PruneSees(st, gone, w, k - 1);
      if k - 1 in w.info && !w.info[k - 1].inTried && w.info[k - 1].refs == 0 {
        PrunedMore(st, gone, w, k - 1);
      }
    }
  }

  lemma NoneGone(st: State)
    requires Listed(st)
    ensures PrunedTo(st, GoneBelow(st.info, 0), st)
  {
    assert GoneBelow(st.info, 0) == {};
    assert IpsOf(st.info, {}) == {} && st.addr - {} == st.addr;
  }

  /** Pruning finds the entries that were without a reference from the start. */
  lemma PruneSees(st: State, gone: set<int>, w: State, k: int)
    requires PrunedTo(st, gone, w) && k !in gone
    ensures k in w.info && !w.info[k].inTried && w.info[k].refs == 0 <==> k in Loose(st.info)
  {
    hide IpsOf;
  }

  lemma GoneMore(info: map<int, Info>, k: nat)
    ensures GoneBelow(info, k) <= info.Keys && k !in GoneBelow(info, k)
    ensures GoneBelow(info, k + 1) == if k in Loose(info) then GoneBelow(info, k) + {k} else GoneBelow(info, k)
  {
  }

  /** Entries that share an address are all without a reference, so that they all go. */
  ghost predicate NoClash(info: map<int, Info>) {
    forall i, j :: i in info && j in info && i != j && info[i].service.ip == info[j].service.ip ==> i in Loose(info)
  }

  lemma IpsHave(info: map<int, Info>, ids: set<int>, j: int)
    requires j in ids && j in info
    ensures info[j].service.ip in IpsOf(info, ids)
  {
  }

  lemma IpsFrom(info: map<int, Info>, ids: set<int>, a: NetAddr)
    ensures a in IpsOf(info, ids) <==> exists j :: j in ids && j in info && info[j].service.ip == a
  {
  }

  /** An entry that stays and shares its address breaks the index. */
  lemma ClashBreaks(st: State, w: State, i: int, j: int)
    requires PrunedTo(st, Loose(st.info), w) && i in st.info && j in st.info && i != j && i !in Loose(st.info)
    requires st.info[i].service.ip == st.info[j].service.ip
    ensures !Addressed(w)
  {
    var a := st.info[i].service.ip;
    assert i in w.info && w.info[i].service.ip == a;
    hide IpsOf;
    if j in Loose(st.info) {
      IpsHave(st.info, Loose(st.info), j);
      assert a !in w.addr;
    } else {
      assert j in w.info && w.info[j].service.ip == a;
    }
  }

  /** One that shares it with none stays indexed. */
  lemma StaysIndexed(st: State, id: int)
    requires Latest(st) && NoClash(st.info) && id in st.info && id !in Loose(st.info)
    ensures var a := st.info[id].service.ip; a in st.addr && st.addr[a] == id && a !in IpsOf(st.info, Loose(st.info))
  {
    IpsFrom(st.info, Loose(st.info), st.info[id].service.ip);
  }

  /** After pruning, the index is right exactly when no entry that stays shares its address. */
  lemma PrunedIndex(st: State, w: State)
    requires Latest(st) && PrunedTo(st, Loose(st.info), w)
    ensures Addressed(w) <==> NoClash(st.info)
  {
    if NoClash(st.info) {
      ClearIndex(st, w);
    } else {
      var i, j :| i in st.info && j in st.info && i != j && st.info[i].service.ip == st.info[j].service.ip && i !in Loose(st.info);
      ClashBreaks(st, w, i, j);
    }
  }

  lemma ClearIndex(st: State, w: State)
    requires Latest(st) && PrunedTo(st, Loose(st.info), w) && NoClash(st.info)
    ensures Addressed(w)
  {
    hide IpsOf, Loose, NoClash;
    forall id | id in w.info ensures w.info[id].service.ip in w.addr && w.addr[w.info[id].service.ip] == id {
      StaysIndexed(st, id);
    }
    forall a | a in w.addr ensures w.addr[a] in w.info && w.info[w.addr[a]].service.ip == a {
      assert a in st.addr && w.addr[a] == st.addr[a] && a !in IpsOf(st.info, Loose(st.info));
      var j := st.addr[a];
      assert j in st.info && st.info[j].service.ip == a;
      if j in Loose(st.info) { IpsHave(st.info, Loose(st.info), j); }
    }
  }

  // ---------------------------------------------------------------- the whole load

  const VERSION: nat := 1
  const KEY_SIZE: nat := 32
  const BIT_30: nat := 0x4000_0000

  /** Exclusive or with 2^30, also of a negative number in two's complement. */
  function Flip(x: int): int {
    if x / BIT_30 % 2 == 1 then x - BIT_30 else x + BIT_30
  }

  function BucketCount(d: Disk): int {
    if d.version != 0 then Flip(d.uBuckets) else d.uBuckets
  }

  predicate Usable(d: Disk) {
    d.version == VERSION && BucketCount(d) == NEW_BUCKETS
  }

  /** The file holds as many records as it says; of a negative number it holds none. */
  predicate Complete(d: Disk) {
    |d.news| == Max(0, d.nNew) && |d.trieds| == Max(0, d.nTried) && |d.buckets| == Max(0, BucketCount(d))
  }

  /** And those numbers are not negative. */
  predicate Formed(d: Disk) {
    d.nNew == |d.news| && d.nTried == |d.trieds| && |d.buckets| == Max(0, BucketCount(d))
  }

  function AllIps(d: Disk): seq<NetAddr> { Ips(d.news + d.trieds) }

  /** What is in the tables before entries without reference are pruned. */
  function Filled(h: Hashes, d: Disk): State
    requires Formed(d)
  {
    var st := LoadTrieds(h, LoadNews(h, d.news, |d.news|, Usable(d)), d.trieds, |d.trieds|);
    if Usable(d) then LoadBuckets(h, st, |d.news|, d.buckets, NEW_BUCKETS) else st
  }

  lemma TablesReady(h: Hashes, d: Disk)
    requires Formed(d)
    ensures TriedsIn(h, LoadTrieds(h, LoadNews(h, d.news, |d.news|, Usable(d)), d.trieds, |d.trieds|), AllIps(d), |d.news|, |d.trieds|)
  {
    var ips, n := AllIps(d), |d.news|;
    var a := LoadNews(h, d.news, n, Usable(d));
    LoadNewsKeeps(h, d.news, ips, n, Usable(d));
    assert TriedsIn(h, a, ips, n, 0);
    hide Stocked, IndexedSoFar, LoadNews, LoadTrieds, NewFirst;
    LoadTriedsKeeps(h, a, ips, n, d.trieds, |d.trieds|);
  }

  /** Whatever a file holds, list, tables and counters agree when its records and references are read, and
      so does the index if its addresses are distinct. */
  lemma FilledStocked(h: Hashes, d: Disk)
    requires Formed(d)
    ensures Stocked(h, Filled(h, d)) && Latest(Filled(h, d)) && (Distinct(AllIps(d)) ==> Addressed(Filled(h, d)))
  {
    TablesReady(h, d);
    var b := LoadTrieds(h, LoadNews(h, d.news, |d.news|, Usable(d)), d.trieds, |d.trieds|);
    hide Stocked, Latest, Addressed, Known, Distinct, LoadNews, LoadTrieds, NewFirst;
    if Usable(d) { LoadBucketsKeeps(h, b, |d.news|, d.buckets, NEW_BUCKETS); }
  }

  lemma FilledPartly(h: Hashes, d: Disk)
    requires Formed(d) && Distinct(AllIps(d))
    ensures Partly(h, Filled(h, d)) && Filled(h, d).idCount >= 0
  {
    FilledStocked(h, d);
  }

  lemma FilledListed(h: Hashes, d: Disk)
    requires Formed(d)
    ensures Listed(Filled(h, d)) && Filled(h, d).idCount >= 0
  {
    FilledStocked(h, d);
  }

  /** A negative number of new entries is where ids start, and stays their count; so does that of tried ones. */
  function Negative(h: Hashes, d: Disk): State {
    LoadTrieds(h, Empty().(idCount := d.nNew, nNew := d.nNew, nTried := Min(0, d.nTried)), d.trieds, |d.trieds|)
  }

  function WithoutTried(d: Disk): Disk { d.(nTried := 0) }

  /** Loading into a new manager; a stream that ends before all records are read is an error. */
  ghost function Load(h: Hashes, d: Disk): Loaded {
    if d.keySize != KEY_SIZE then Failure("Incorrect keysize in addrman deserialization")
    else if d.nNew > NEW_BUCKETS * BUCKET_SIZE then Failure("Corrupt CAddrMan serialization, nNew exceeds limit.")
    else if d.nTried > TRIED_BUCKETS * BUCKET_SIZE then Failure("Corrupt CAddrMan serialization, nTried exceeds limit.")
    else if !Complete(d) then Failure("CDataStream::read(): end of data")
    else if d.nNew < 0 then Success(Negative(h, d))
    else if d.nTried < 0 then
      FilledListed(h, WithoutTried(d));
      var st := Filled(h, WithoutTried(d));
      Success(Prune(st, st.idCount).(nTried := d.nTried))
    else
      FilledListed(h, d);
      Success(Prune(Filled(h, d), Filled(h, d).idCount))
  }

  lemma AllGone(st: State)
    requires Listed(st)
    ensures GoneBelow(st.info, st.idCount) == Loose(st.info)
  {
    forall j ensures j in GoneBelow(st.info, st.idCount) <==> j in Loose(st.info) {}
  }

  lemma FormedWholeIff(h: Hashes, d: Disk)
    requires Formed(d)
    ensures Listed(Filled(h, d)) && Filled(h, d).idCount >= 0
    ensures Whole(h, Prune(Filled(h, d), Filled(h, d).idCount)) <==> NoClash(Filled(h, d).info)
  {
    var st := Filled(h, d);
    FilledStocked(h, d);
    StockedListed(h, st);
    PruneKeeps(h, st, st.idCount);
    PruneCount(st, st.idCount);
    PruneIs(st, st.idCount);
    AllGone(st);
    hide Stocked, NoneLoose, Filled, Listed, Latest, NoClash, PrunedTo, Addressed;
    PrunedIndex(st, Prune(st, st.idCount));
    PrunedWhole(h, Prune(st, st.idCount), st.idCount);
  }

  lemma {:induction false} TriedsNew(h: Hashes, st: State, trieds: seq<Stored>, k: nat)
    requires k <= |trieds|
    ensures LoadTrieds(h, st, trieds, k).nNew == st.nNew
  {
    if k > 0 { TriedsNew(h, st, trieds, k - 1); }
  }

  lemma WholeCounts(h: Hashes, st: State)
    requires Whole(h, st)
    ensures st.nNew >= 0 && st.nTried >= 0
  {
  }

  /** Whatever a file holds, tables that collide, references to nothing, entries referred to by no bucket:
      what is loaded is consistent if and only if no count is negative and entries read for one address all
      end up without a reference. */
  lemma LoadWholeIff(h: Hashes, d: Disk)
    requires Load(h, d).Success?
    ensures Whole(h, Load(h, d).st) <==> Formed(d) && NoClash(Filled(h, d).info)
  {
    var w := Load(h, d).st;
    hide Whole, Filled, LoadTrieds, NoClash;
    if Formed(d) {
      FormedWholeIff(h, d);
    } else {
      TriedsNew(h, Empty().(idCount := d.nNew, nNew := d.nNew, nTried := Min(0, d.nTried)), d.trieds, |d.trieds|);
      if Whole(h, w) { WholeCounts(h, w); }
    }
  }

  /** With distinct addresses it always is. */
  lemma LoadWhole(h: Hashes, d: Disk)
    requires Formed(d) && Distinct(AllIps(d)) && Load(h, d).Success?
    ensures Whole(h, Load(h, d).st)
  {
    FilledPartly(h, d);
    assert NoClash(Filled(h, d).info);
    hide Filled, Partly, NoClash, Distinct;
    LoadWholeIff(h, d);
  }

  lemma {:induction false} IdsGrow(h: Hashes, st: State, trieds: seq<Stored>, k: nat)
    requires k <= |trieds|
    ensures LoadTrieds(h, st, trieds, k).idCount >= st.idCount
  {
    if k > 0 { IdsGrow(h, st, trieds, k - 1); }
  }

  lemma {:induction false} TriedTaken(h: Hashes, st: State, trieds: seq<Stored>, i: nat, k: nat)
    requires i < k <= |trieds| && st.idCount >= 0
    ensures LoadTrieds(h, st, trieds, k).idCount >= 0 && TriedSlot(h, trieds[i].service) in LoadTrieds(h, st, trieds, k).triedTable
  {
    if i < k - 1 { TriedTaken(h, st, trieds, i, k - 1); } else { IdsGrow(h, st, trieds, k - 1); }
  }

  /** A service repeated among the tried records is lost to its own slot and does no harm. */
  lemma RepeatLost(h: Hashes, st: State, trieds: seq<Stored>, i: nat, j: nat)
    requires i < j < |trieds| && trieds[i].service == trieds[j].service && st.idCount >= 0
    ensures LoadTrieds(h, st, trieds, j + 1) == LoadTrieds(h, st, trieds, j)
  {
    TriedTaken(h, st, trieds, i, j);
  }

  /** An address repeated between the new and the tried records breaks the index: whichever file of
      another format holds one record of each for it loads as an inconsistent manager. */
  lemma RepeatBreaks(h: Hashes, d: Disk)
    requires Formed(d) && !Usable(d) && |d.news| == |d.trieds| == 1 && Load(h, d).Success?
    requires d.news[0].service.ip == d.trieds[0].service.ip
    ensures !Whole(h, Load(h, d).st)
  {
    var s, t := d.news[0], d.trieds[0];
    assert LoadNews(h, d.news, 1, false) == LoadNew(h, LoadNews(h, d.news, 0, false), s, false);
    var a := LoadNew(h, Empty(), s, false);
    assert LoadTrieds(h, a, d.trieds, 1) == LoadTried(h, LoadTrieds(h, a, d.trieds, 0), t);
    var w := Filled(h, d);
    assert w == LoadTried(h, a, t);
    assert 0 in w.info && 1 in w.info && w.info[0].service == s.service && w.info[1].service == t.service && w.info[1].inTried;
    assert 1 !in Loose(w.info);
    assert !NoClash(w.info);
    hide NoClash, Filled;
    LoadWholeIff(h, d);
  }

  // ---------------------------------------------------------------- the loops

  /** One new entry, as number n. */
  method ReadNew(h: Hashes, a: State, s: Stored, n: nat, usable: bool) returns (st: State)
    ensures st == LoadNew(h, a.(idCount := n), s, usable).(nNew := a.nNew, idCount := a.idCount)
  {
    st := a.(info := a.info[n := Restored(s, false, |a.random|)], addr := a.addr[s.service.ip := n], random := a.random + [n]);
    if !usable {
      var slot := NewSlot(h, s.service, s.source);
      if slot !in st.newTable {
        st := st.(newTable := st.newTable[slot := n], info := st.info[n := st.info[n].(refs := st.info[n].refs + 1)]);
      }
    }
  }

  /** Loading an entry does not depend on the counters. */
  lemma ReadStep(h: Hashes, a: State, x: State, s: Stored, usable: bool, nNew: int, nTried: int)
    requires a == x.(nNew := nNew, nTried := nTried, idCount := 0)
    ensures LoadNew(h, a.(idCount := x.idCount), s, usable).(nNew := nNew, idCount := 0) ==
      LoadNew(h, x, s, usable).(nNew := nNew, nTried := nTried, idCount := 0)
  {
  }

  lemma NewsNext(h: Hashes, d: Disk, n: nat)
    requires n <= |d.news|
    ensures LoadNews(h, d.news, n, Usable(d)).idCount == n
    ensures n < |d.news| ==> LoadNews(h, d.news, n + 1, Usable(d)) == LoadNew(h, LoadNews(h, d.news, n, Usable(d)), d.news[n], Usable(d))
  {
    LoadNewsKeeps(h, d.news, AllIps(d), n, Usable(d));
  }

  /** Reads the new entries; the counters stand at their stored values from the start. */
  method ReadNews(h: Hashes, d: Disk) returns (st: State)
    requires Complete(d)
    ensures st == LoadNews(h, d.news, |d.news|, Usable(d)).(nNew := d.nNew, nTried := d.nTried, idCount := d.nNew)
  {
    st := Empty().(nNew := d.nNew, nTried := d.nTried);
    assert st == LoadNews(h, d.news, 0, Usable(d)).(nNew := d.nNew, nTried := d.nTried, idCount := 0);
    hide AllIps, Usable, LoadNew, LoadNews;
    for n := 0 to |d.news|
      invariant st == LoadNews(h, d.news, n, Usable(d)).(nNew := d.nNew, nTried := d.nTried, idCount := 0)
    {
      NewsNext(h, d, n);
      ReadStep(h, st, LoadNews(h, d.news, n, Usable(d)), d.news[n], Usable(d), d.nNew, d.nTried);
      st := ReadNew(h, st, d.news[n], n, Usable(d));
    }
    st := st.(idCount := d.nNew);
  }

  /** Reads the tried entries that find their slot free. */
  method ReadTrieds(h: Hashes, a: State, d: Disk) returns (st: State)
    requires a.nTried == d.nTried && |d.trieds| == Max(0, d.nTried)
    ensures st == LoadTrieds(h, a.(nTried := Min(0, d.nTried)), d.trieds, |d.trieds|)
  {
    st := a;
    var nLost := 0;
    ghost var from := a.(nTried := Min(0, d.nTried));
    for n := 0 to |d.trieds|
      invariant st == LoadTrieds(h, from, d.trieds, n).(nTried := d.nTried)
      invariant nLost == n + from.nTried - LoadTrieds(h, from, d.trieds, n).nTried
    {
      var s := d.trieds[n];
      var slot := TriedSlot(h, s.service);
      if slot !in st.triedTable {
        st := st.(random := st.random + [st.idCount], info := st.info[st.idCount := Restored(s, true, |st.random|)],
                  addr := st.addr[s.service.ip := st.idCount],
                  triedTable := if st.idCount == NO_ID then st.triedTable else st.triedTable[slot := st.idCount],
                  idCount := st.idCount + 1);
      } else {
        nLost := nLost + 1;
      }
    }
    st := st.(nTried := st.nTried - nLost);
  }

  method ReadRow(h: Hashes, a: State, n: nat, bucket: nat, row: seq<int>) returns (st: State)
    requires NewFirst(a, n)
    ensures st == LoadRefs(h, a, n, bucket, row) && NewFirst(st, n)
  {
    st := a;
    assert row[..0] == [];
    for k := 0 to |row|
      invariant st == LoadRefs(h, a, n, bucket, row[..k]) && NewFirst(st, n)
    {
      assert row[..k + 1][..k] == row[..k];
      var nIndex := row[k];
      if 0 <= nIndex < n {
        var slot := NewSlotIn(h, st.info[nIndex].service, bucket);
        if slot !in st.newTable && st.info[nIndex].refs < MAX_REFERENCES {
          st := st.(info := st.info[nIndex := st.info[nIndex].(refs := st.info[nIndex].refs + 1)], newTable := st.newTable[slot := nIndex]);
        }
      }
    }
    assert row[..|row|] == row;
  }

  /** Reads the new table; in a file of another format it is only passed over. */
  method ReadBuckets(h: Hashes, a: State, d: Disk) returns (st: State)
    requires Complete(d) && NewFirst(a, |d.news|)
    ensures st == if Usable(d) then LoadBuckets(h, a, |d.news|, d.buckets, NEW_BUCKETS) else a
  {
    st := a;
    hide NewFirst, LoadRefs;
    for b := 0 to |d.buckets|
      invariant Usable(d) ==> st == LoadBuckets(h, a, |d.news|, d.buckets, b)
      invariant !Usable(d) ==> st == a
      invariant NewFirst(st, |d.news|)
    {
      if Usable(d) {
        st := ReadRow(h, st, |d.news|, b, d.buckets[b]);
      }
    }
  }

  /** Deletes the entries without reference, in the order of ids, which may start below zero. */
  method PruneAll(a: State, low: int) returns (st: State)
    requires low <= 0 && low <= a.idCount && (Listed(a) || Loose(a.info) == {})
    ensures Listed(a) ==> st == Prune(a, a.idCount)
    ensures Loose(a.info) == {} ==> st == a
  {
    st := a;
    hide Delete;
    for id := low to a.idCount
      invariant Listed(a) ==> st == Prune(a, Max(0, id))
      invariant Loose(a.info) == {} ==> st == a
    {
      if id in st.info && !st.info[id].inTried && st.info[id].refs == 0 {
        assert id in Loose(st.info);
        st := Delete(st, id);
      }
    }
  }

  /** The state once the records are read. */
  function Entered(h: Hashes, d: Disk): State {
    LoadTrieds(h, LoadNews(h, d.news, |d.news|, Usable(d)).(nNew := d.nNew, nTried := Min(0, d.nTried), idCount := d.nNew), d.trieds, |d.trieds|)
  }

  /** And once the references are. */
  function Tables(h: Hashes, d: Disk): State
    requires Complete(d)
  {
    if Usable(d) then LoadBuckets(h, Entered(h, d), |d.news|, d.buckets, NEW_BUCKETS) else Entered(h, d)
  }

  lemma NewsCounts(h: Hashes, d: Disk)
    requires Complete(d) && d.nNew >= 0
    ensures var a := LoadNews(h, d.news, |d.news|, Usable(d)); a.nNew == a.idCount == d.nNew && a.nTried == 0
  {
    LoadNewsKeeps(h, d.news, AllIps(d), |d.news|, Usable(d));
    NoneTried(h, d.news, |d.news|, Usable(d));
  }

  lemma {:induction false} NoneTried(h: Hashes, news: seq<Stored>, k: nat, usable: bool)
    requires k <= |news|
    ensures LoadNews(h, news, k, usable).nTried == 0
  {
    if k > 0 { NoneTried(h, news, k - 1, usable); }
  }

  /** The number of tried entries plays no part in reading references. */
  lemma {:induction false} RefsApart(h: Hashes, st: State, x: int, n: nat, bucket: nat, indexes: seq<int>)
    ensures LoadRefs(h, st.(nTried := x), n, bucket, indexes) == LoadRefs(h, st, n, bucket, indexes).(nTried := x)
  {
    if indexes != [] { RefsApart(h, st, x, n, bucket, indexes[..|indexes| - 1]); }
  }

  lemma {:induction false} BucketsApart(h: Hashes, st: State, x: int, n: nat, buckets: seq<seq<int>>, k: nat)
    requires k <= |buckets|
    ensures LoadBuckets(h, st.(nTried := x), n, buckets, k) == LoadBuckets(h, st, n, buckets, k).(nTried := x)
  {
    hide LoadRefs;
    if k > 0 {
      BucketsApart(h, st, x, n, buckets, k - 1);
      RefsApart(h, LoadBuckets(h, st, n, buckets, k - 1), x, n, k - 1, buckets[k - 1]);
    }
  }

  /** Nor in pruning. */
  lemma {:induction false} PruneApart(st: State, x: int, k: nat)
    requires Listed(st)
    ensures Listed(st.(nTried := x)) && Prune(st.(nTried := x), k) == Prune(st, k).(nTried := x)
  {
    hide Listed, Delete, Prune;
    var y := st.(nTried := x);
    SameIndex(st, y);
    if k == 0 {
      PruneNone(st);
      PruneNone(y);
    } else {
      PruneApart(st, x, k - 1);
      var w := Prune(st, k - 1);
      PruneMore(st, k - 1);
      PruneMore(y, k - 1);
      if k - 1 in w.info && !w.info[k - 1].inTried && w.info[k - 1].refs == 0 { DeleteApart(w, x, k - 1); }
    }
  }

  lemma DeleteApart(st: State, x: int, id: int)
    requires Listed(st) && Listed(st.(nTried := x)) && id in st.info
    ensures Delete(st.(nTried := x), id) == Delete(st, id).(nTried := x)
  {
    hide Listed;
  }

  /** Without new entries no reference is good. */
  lemma {:induction false} NoRefs(h: Hashes, st: State, bucket: nat, indexes: seq<int>)
    ensures LoadRefs(h, st, 0, bucket, indexes) == st
  {
    if indexes != [] { NoRefs(h, st, bucket, indexes[..|indexes| - 1]); }
  }

  lemma {:induction false} NoBuckets(h: Hashes, st: State, buckets: seq<seq<int>>, k: nat)
    requires k <= |buckets|
    ensures LoadBuckets(h, st, 0, buckets, k) == st
  {
    hide LoadRefs;
    if k > 0 {
      NoBuckets(h, st, buckets, k - 1);
      NoRefs(h, st, k - 1, buckets[k - 1]);
    }
  }

  lemma {:induction false} OnlyTried(h: Hashes, st: State, trieds: seq<Stored>, k: nat)
    requires k <= |trieds| && st.info == map[]
    ensures var w := LoadTrieds(h, st, trieds, k); w.idCount >= st.idCount && Loose(w.info) == {} && forall id :: id in w.info ==> w.info[id].inTried
  {
    if k > 0 { OnlyTried(h, st, trieds, k - 1); }
  }

  lemma TablesNegative(h: Hashes, d: Disk)
    requires Complete(d) && d.nNew < 0
    ensures Tables(h, d) == Negative(h, d) && Negative(h, d).idCount >= d.nNew && Loose(Negative(h, d).info) == {}
  {
    assert LoadNews(h, d.news, 0, Usable(d)) == Empty();
    hide LoadTrieds, LoadBuckets, Loose;
    OnlyTried(h, Empty().(idCount := d.nNew, nNew := d.nNew, nTried := Min(0, d.nTried)), d.trieds, |d.trieds|);
    if Usable(d) { NoBuckets(h, Entered(h, d), d.buckets, NEW_BUCKETS); }
  }

  lemma TablesFormed(h: Hashes, d: Disk)
    requires Formed(d)
    ensures Tables(h, d) == Filled(h, d) && Listed(Filled(h, d)) && Filled(h, d).idCount >= 0
  {
    hide LoadNews, LoadTrieds, LoadBuckets, Listed;
    NewsCounts(h, d);
    FilledListed(h, d);
  }

  lemma TablesNoTried(h: Hashes, d: Disk)
    requires Complete(d) && d.nNew >= 0 && d.nTried < 0
    ensures var st := Filled(h, WithoutTried(d));
      Tables(h, d) == st.(nTried := d.nTried) && Listed(st) && Listed(st.(nTried := d.nTried)) && st.idCount >= 0
      && Prune(st.(nTried := d.nTried), st.idCount) == Prune(st, st.idCount).(nTried := d.nTried)
  {
    var e, st := WithoutTried(d), Filled(h, WithoutTried(d));
    NewsCounts(h, d);
    var a := LoadNews(h, d.news, |d.news|, Usable(d));
    assert Entered(h, d) == a.(nTried := d.nTried);
    FilledListed(h, e);
    hide LoadNews, LoadBuckets, Listed, Prune;
    PruneApart(st, d.nTried, st.idCount);
    if Usable(d) { BucketsApart(h, a, d.nTried, |d.news|, d.buckets, NEW_BUCKETS); }
  }

  lemma EnteredFirst(h: Hashes, d: Disk)
    requires Complete(d)
    ensures NewFirst(Entered(h, d), |d.news|)
  {
    if d.nNew >= 0 {
      NewsCounts(h, d);
      if d.nTried >= 0 {
        TablesReady(h, d);
      } else {
        LoadNewsKeeps(h, d.news, AllIps(d), |d.news|, Usable(d));
      }
    }
  }

  method Unserialize(h: Hashes, d: Disk) returns (r: Loaded)
    ensures r == Load(h, d)
  {
    if d.keySize != KEY_SIZE { return Failure("Incorrect keysize in addrman deserialization"); }
    if d.nNew > NEW_BUCKETS * BUCKET_SIZE { return Failure("Corrupt CAddrMan serialization, nNew exceeds limit."); }
    if d.nTried > TRIED_BUCKETS * BUCKET_SIZE { return Failure("Corrupt CAddrMan serialization, nTried exceeds limit."); }
    if !Complete(d) { return Failure("CDataStream::read(): end of data"); }
    hide Listed, Loose, NewFirst, Negative, Filled, LoadNews, LoadTrieds, LoadBuckets, Prune;
    EnteredFirst(h, d);
    var st := ReadNews(h, d);
    st := ReadTrieds(h, st, d);
    st := ReadBuckets(h, st, d);
    assert st == Tables(h, d);
    if d.nNew < 0 {
      TablesNegative(h, d);
    } else if d.nTried < 0 {
      TablesNoTried(h, d);
    } else {
      TablesFormed(h, d);
    }
    st := PruneAll(st, Min(0, d.nNew));
    return Success(st);
  }
}
