/** What the address manager's operations do, field by field.

    The invariants say that every operation leaves a consistent manager; here is which one. */
module AddrManEffects {

  import opened Basics
  import opened AddrMan
  import opened AddrManOps

  const TIME_RANGE: nat := 0x1_0000_0000

  /** The time kept for an announced one; who announces itself has no penalty. */
  function TimeKept(a: Address, source: NetAddr, nTimePenalty: int): nat {
    Max(0, a.time - if a.service.ip == source then 0 else nTimePenalty) % TIME_RANGE
  }

  /** The entry made of an announced address, with its one reference. */
  function EntryFor(a: Address, source: NetAddr, nTimePenalty: int, pos: nat): Info {
    Info(a.service, source, a.services, TimeKept(a, source, nTimePenalty), 0, 0, 0, 0, 1, false, pos)
  }

  // ---------------------------------------------------------------- deleting

  /** An entry is gone; the last of the random list has its position, and nothing else has changed. */
  ghost predicate Removed(c: State, o: int, w: State) {
    && o in c.info && 0 <= c.info[o].randomPos < |c.random|
    && var pos, last := c.info[o].randomPos, c.random[|c.random| - 1];
    && w == c.(info := w.info, random := c.random[pos := last][..|c.random| - 1], addr := c.addr - {c.info[o].service.ip}, nNew := c.nNew - 1)
    && w.info.Keys == c.info.Keys - {o}
    && forall j :: j in w.info ==> w.info[j] == c.info[j].(randomPos := if j == last then pos else c.info[j].randomPos)
  }

  lemma SwappedOut(st: State, id: int)
    requires Listed(st) && id in st.info
    ensures |st.random| > 0 && 0 <= st.info[id].randomPos < |st.random|
    ensures var pos, n := st.info[id].randomPos, |st.random|; var last, w := st.random[n - 1], SwapRandom(st, pos, n - 1);
      && w == st.(info := w.info, random := w.random) && |w.random| == n && w.info.Keys == st.info.Keys
      && (forall k :: 0 <= k < n - 1 ==> w.random[k] == st.random[pos := last][k])
      && forall j :: j in st.info && j != id ==> w.info[j] == st.info[j].(randomPos := if j == last then pos else st.info[j].randomPos)
  {
  }

  lemma DeleteRemoves(st: State, id: int)
    requires Listed(st) && id in st.info
    ensures Removed(st, id, Delete(st, id))
  {
    SwappedOut(st, id);
    hide Listed, SwapRandom;
    var pos, n := st.info[id].randomPos, |st.random|;
    var w := SwapRandom(st, pos, n - 1);
    assert w.random[..n - 1] == st.random[pos := st.random[n - 1]][..n - 1];
  }

  /** A slot of the new table goes to an entry.  Apart from the reference itself, its holder loses one, or
      is removed if that was its last. */
  ghost predicate TakesSlot(c: State, s: Slot, id: int, w: State)
    requires id in c.info && (s in c.newTable ==> c.newTable[s] in c.info)
  {
    && id in w.info && w.newTable == c.newTable[s := id] && w.info[id].refs == c.info[id].refs + 1
    && var v := w.(newTable := c.newTable, info := w.info[id := w.info[id].(refs := c.info[id].refs)]);
      if s !in c.newTable then v == c
      else
        var o := c.newTable[s];
        if c.info[o].refs > 1 then v == c.(info := c.info[o := c.info[o].(refs := c.info[o].refs - 1)])
        else Removed(c, o, v)
  }

  lemma TakesFree(c: State, s: Slot, id: int, w: State)
    requires id in c.info && s !in c.newTable && TakesSlot(c, s, id, w)
    ensures w == c.(newTable := c.newTable[s := id], info := c.info[id := c.info[id].(refs := c.info[id].refs + 1)])
  {
    var back := w.info[id := w.info[id].(refs := c.info[id].refs)];
    assert back == c.info && w.info[id] == back[id].(refs := c.info[id].refs + 1);
    assert w.info == back[id := w.info[id]];
  }

  lemma TakesShared(c: State, s: Slot, id: int, w: State)
    requires id in c.info && s in c.newTable && c.newTable[s] in c.info && c.info[c.newTable[s]].refs > 1 && TakesSlot(c, s, id, w) && c.newTable[s] != id
    ensures var o := c.newTable[s];
      w == c.(newTable := c.newTable[s := id], info := c.info[o := c.info[o].(refs := c.info[o].refs - 1)][id := c.info[id].(refs := c.info[id].refs + 1)])
  {
    var o := c.newTable[s];
    var back := w.info[id := w.info[id].(refs := c.info[id].refs)];
    var less := c.info[o := c.info[o].(refs := c.info[o].refs - 1)];
    assert back == less && less[id] == c.info[id] && w.info[id] == back[id].(refs := c.info[id].refs + 1);
    assert w.info == back[id := w.info[id]];
  }

  /** The same entry at another position, with more references. */
  function Moved(i: Info, pos: int, more: int): Info { i.(randomPos := pos, refs := i.refs + more) }

  lemma TakesLast(c: State, s: Slot, id: int, w: State)
    requires id in c.info && s in c.newTable && c.newTable[s] in c.info && c.info[c.newTable[s]].refs <= 1 && TakesSlot(c, s, id, w) && c.newTable[s] != id
    ensures var o := c.newTable[s];
      && 0 <= c.info[o].randomPos < |c.random|
      && var pos, last := c.info[o].randomPos, c.random[|c.random| - 1];
      && w == c.(newTable := c.newTable[s := id], info := w.info, random := c.random[pos := last][..|c.random| - 1],
                 addr := c.addr - {c.info[o].service.ip}, nNew := c.nNew - 1)
      && w.info.Keys == c.info.Keys - {o}
      && forall j :: j in w.info ==> w.info[j] == Moved(c.info[j], if j == last then pos else c.info[j].randomPos, if j == id then 1 else 0)
  {
    var v := w.(newTable := c.newTable, info := w.info[id := w.info[id].(refs := c.info[id].refs)]);
    assert v.info.Keys == w.info.Keys;
    assert forall j :: j in w.info && j != id ==> v.info[j] == w.info[j];
    assert w.info[id] == v.info[id].(refs := c.info[id].refs + 1);
  }

  lemma RemovedAfterDrop(c: State, s: Slot, o: int, x: State, id: int)
    requires Listed(c) && s in c.newTable && c.newTable[s] == o && o in c.info && id in c.info && id != o
    requires Removed(DropRef(c, s), o, x)
    ensures id in x.info
    ensures Removed(c, o, AddRef(x, s, id).(newTable := c.newTable, info := AddRef(x, s, id).info[id := x.info[id]]))
  {
    var d := DropRef(c, s);
    var v := AddRef(x, s, id).(newTable := c.newTable, info := AddRef(x, s, id).info[id := x.info[id]]);
    assert v.info == x.info;
    assert forall j :: j in x.info ==> d.info[j] == c.info[j];
  }

  lemma ClearThenAdd(c: State, s: Slot, id: int)
    requires Index(c) && id in c.info && (s in c.newTable ==> c.newTable[s] in c.info && c.newTable[s] != id && c.info[c.newTable[s]].refs > 0)
    ensures id in ClearNew(c, s).info && TakesSlot(c, s, id, AddRef(ClearNew(c, s), s, id))
  {
    ClearedStays(c, s, id);
    var x := ClearNew(c, s);
    var w := AddRef(x, s, id);
    if s in c.newTable {
      var o := c.newTable[s];
      assert (c.newTable - {s})[s := id] == c.newTable[s := id];
      if c.info[o].refs > 1 {
        assert w.info[id := w.info[id].(refs := c.info[id].refs)] == x.info;
      } else {
        DropRefIndex(c, s);
        DeleteRemoves(DropRef(c, s), o);
        RemovedAfterDrop(c, s, o, x, id);
      }
    } else {
      assert w.info[id := w.info[id].(refs := c.info[id].refs)] == c.info;
    }
  }

  // ---------------------------------------------------------------- adding

  /** A slot an entry may take: free, or held by a terrible entry, or by one with references to spare when
      the entry has none. */
  predicate Yields(c: State, s: Slot, refs: int, now: int)
    requires s in c.newTable ==> c.newTable[s] in c.info
  {
    s !in c.newTable || IsTerrible(c.info[c.newTable[s]], now) || (c.info[c.newTable[s]].refs > 1 && refs == 0)
  }

  lemma HoldersCount(h: Hashes, c: State, loose: set<int>, s: Slot)
    requires Mid(h, c, loose, {}) && s in c.newTable
    ensures c.newTable[s] in c.info && c.newTable[s] !in loose && c.info[c.newTable[s]].refs > 0
  {
    assert s in SlotsOf(c.newTable, c.newTable[s]);
  }

  lemma InsertIs(h: Hashes, c: State, id: int, source: NetAddr, now: int, loose: set<int>)
    requires Mid(h, c, loose, {}) && id in c.info && (c.info[id].refs == 0 <==> id in loose)
    ensures var s, w := NewSlot(h, c.info[id].service, source), Insert(h, c, id, source, now);
      && (s in c.newTable ==> c.newTable[s] in c.info)
      && if s in c.newTable && c.newTable[s] == id then w == c
         else if Yields(c, s, c.info[id].refs, now) then TakesSlot(c, s, id, w)
         else if c.info[id].refs == 0 then Removed(c, id, w)
         else w == c
  {
    var s := NewSlot(h, c.info[id].service, source);
    if s in c.newTable { HoldersCount(h, c, loose, s); }
    hide RefsOk, TriedOk, Counted, TakesSlot, Removed, IsTerrible;
    if !(s in c.newTable && c.newTable[s] == id) {
      ClearThenAdd(c, s, id);
      DeleteRemoves(c, id);
      hide Listed, Addressed, ClearNew, Delete;
    }
  }

  /** A new entry before it has its reference. */
  function Created(st: State, a: Address, source: NetAddr, nTimePenalty: int): State {
    State(st.idCount + 1, st.info[st.idCount := EntryFor(a, source, nTimePenalty, |st.random|).(refs := 0)],
          st.addr[a.service.ip := st.idCount], st.random + [st.idCount], st.nTried, st.triedTable, st.nNew + 1, st.newTable, st.lastGood)
  }

  lemma CreatedIs(st: State, a: Address, source: NetAddr, nTimePenalty: int)
    ensures NewEntry(st, a, source, if a.service.ip == source then 0 else nTimePenalty) == Created(st, a, source, nTimePenalty)
  {
    var w, id := Create(st, a, source), st.idCount;
    var i := w.info[id].(time := TimeKept(a, source, nTimePenalty));
    assert w.info[id := i] == st.info[id := i];
  }

  predicate HolderOk(st: State, o: int) {
    o in st.info && o != st.idCount && st.info[o].refs > 0 && 0 <= st.info[o].randomPos < |st.random|
  }

  lemma UnknownIs(h: Hashes, st: State, a: Address, source: NetAddr, nTimePenalty: int, now: int, lucky: bool)
    requires Whole(h, st) && a.routable && a.service.ip !in st.addr
    ensures var s, c, r := NewSlot(h, a.service, source), Created(st, a, source, nTimePenalty), Add(h, st, a, source, nTimePenalty, now, lucky);
      && r.1 && (s in st.newTable ==> HolderOk(st, st.newTable[s]) && st.info[st.newTable[s]].service.ip in st.addr)
      && st.idCount !in st.info && Listed(st)
      && if Yields(st, s, 0, now) then TakesSlot(c, s, st.idCount, r.0) else Removed(c, st.idCount, r.0)
  {
    var p := if a.service.ip == source then 0 else nTimePenalty;
    NewEntryKeeps(h, st, a, source, p);
    CreatedIs(st, a, source, nTimePenalty);
    var s := NewSlot(h, a.service, source);
    if s in st.newTable { HoldersCount(h, st, {}, s); }
    assert st.idCount !in st.info;
    assert s in st.newTable ==> HolderOk(st, st.newTable[s]) && st.info[st.newTable[s]].service.ip in st.addr;
    hide TriedOk, NewOk, RefsOk, Counted, TakesSlot, Removed, IsTerrible, Insert, NewEntry;
    InsertIs(h, Created(st, a, source, nTimePenalty), st.idCount, source, now, {st.idCount});
  }

  /** A routable address that is not known is added: with its slot free it is entered in all structures,
      and nothing else changes. */
  lemma AddEnters(h: Hashes, st: State, a: Address, source: NetAddr, nTimePenalty: int, now: int, lucky: bool)
    requires Whole(h, st) && a.routable && a.service.ip !in st.addr && NewSlot(h, a.service, source) !in st.newTable
    ensures var s, id := NewSlot(h, a.service, source), st.idCount;
      && id !in st.info
      && Add(h, st, a, source, nTimePenalty, now, lucky) ==
        (State(id + 1, st.info[id := EntryFor(a, source, nTimePenalty, |st.random|)], st.addr[a.service.ip := id], st.random + [id],
               st.nTried, st.triedTable, st.nNew + 1, st.newTable[s := id], st.lastGood), true)
  {
    hide Add, Mid, TakesSlot, Listed, IsTerrible;
    UnknownIs(h, st, a, source, nTimePenalty, now, lucky);
    var w, c, id := Add(h, st, a, source, nTimePenalty, now, lucky).0, Created(st, a, source, nTimePenalty), st.idCount;
    TakesFree(c, NewSlot(h, a.service, source), id, w);
    SetAgain(st.info, id, c.info[id], w.info[id]);
  }

  lemma SetAgain(m: map<int, Info>, id: int, i: Info, j: Info)
    ensures m[id := i][id := j] == m[id := j]
  {
  }

  /** With its slot held by a terrible entry, or one with references to spare, that one makes room.  If it
      has other references it only loses this one. */
  lemma AddDisplaces(h: Hashes, st: State, a: Address, source: NetAddr, nTimePenalty: int, now: int, lucky: bool)
    requires Whole(h, st) && a.routable && a.service.ip !in st.addr && NewSlot(h, a.service, source) in st.newTable
    ensures var s, id := NewSlot(h, a.service, source), st.idCount; var o := st.newTable[s];
      && o in st.info
      && (st.info[o].refs > 1 ==>
        Add(h, st, a, source, nTimePenalty, now, lucky) ==
          (State(id + 1, st.info[o := st.info[o].(refs := st.info[o].refs - 1)][id := EntryFor(a, source, nTimePenalty, |st.random|)],
                 st.addr[a.service.ip := id], st.random + [id],
                 st.nTried, st.triedTable, st.nNew + 1, st.newTable[s := id], st.lastGood), true))
  {
    hide Add, Mid, TakesSlot, Listed, IsTerrible, NewSlot, EntryFor;
    UnknownIs(h, st, a, source, nTimePenalty, now, lucky);
    var w, c, id := Add(h, st, a, source, nTimePenalty, now, lucky).0, Created(st, a, source, nTimePenalty), st.idCount;
    var o := st.newTable[NewSlot(h, a.service, source)];
    if st.info[o].refs > 1 {
      TakesShared(c, NewSlot(h, a.service, source), id, w);
      SharedIs(st, a, source, nTimePenalty, o, w);
    }
  }

  lemma SharedIs(st: State, a: Address, source: NetAddr, nTimePenalty: int, o: int, w: State)
    requires o in st.info && o != st.idCount
    requires var c := Created(st, a, source, nTimePenalty); var id := st.idCount;
      w.info == c.info[o := c.info[o].(refs := c.info[o].refs - 1)][id := c.info[id].(refs := c.info[id].refs + 1)]
    ensures w.info == st.info[o := st.info[o].(refs := st.info[o].refs - 1)][st.idCount := EntryFor(a, source, nTimePenalty, |st.random|)]
  {
    var c, id, less := Created(st, a, source, nTimePenalty), st.idCount, st.info[o].(refs := st.info[o].refs - 1);
    assert c.info[o := less] == st.info[o := less][id := c.info[id]];
    SetAgain(st.info[o := less], id, c.info[id], w.info[id]);
  }

  /** If it was its last, the new entry has its slot and its position in the random list. */
  lemma AddReplaces(h: Hashes, st: State, a: Address, source: NetAddr, nTimePenalty: int, now: int, lucky: bool)
    requires Whole(h, st) && a.routable && a.service.ip !in st.addr && NewSlot(h, a.service, source) in st.newTable
    ensures var s, id := NewSlot(h, a.service, source), st.idCount; var o := st.newTable[s];
      && o in st.info && 0 <= st.info[o].randomPos < |st.random|
      && var pos := st.info[o].randomPos;
      (IsTerrible(st.info[o], now) && st.info[o].refs == 1 ==>
        Add(h, st, a, source, nTimePenalty, now, lucky) ==
          (State(id + 1, (st.info - {o})[id := EntryFor(a, source, nTimePenalty, pos)], (st.addr - {st.info[o].service.ip})[a.service.ip := id],
                 st.random[pos := id], st.nTried, st.triedTable, st.nNew, st.newTable[s := id], st.lastGood), true))
  {
    hide Add, Mid, IsTerrible, TakesSlot, Listed, NewSlot, EntryFor, Moved;
    UnknownIs(h, st, a, source, nTimePenalty, now, lucky);
    var w, c, id := Add(h, st, a, source, nTimePenalty, now, lucky).0, Created(st, a, source, nTimePenalty), st.idCount;
    var s := NewSlot(h, a.service, source);
    var o := st.newTable[s];
    if IsTerrible(st.info[o], now) && st.info[o].refs == 1 {
      assert c.info[o] == st.info[o];
      TakesLast(c, s, id, w);
      ReplacedIs(st, a, source, nTimePenalty, o, w);
    }
  }

  lemma ReplacedIs(st: State, a: Address, source: NetAddr, nTimePenalty: int, o: int, w: State)
    requires Listed(st) && o in st.info && st.idCount !in st.info && st.info[o].service.ip != a.service.ip
    requires var c := Created(st, a, source, nTimePenalty);
      && w.info.Keys == c.info.Keys - {o} && w.addr == c.addr - {c.info[o].service.ip}
      && w.random == c.random[st.info[o].randomPos := st.idCount][..|st.random|]
      && forall j :: j in w.info ==> w.info[j] == Moved(c.info[j], if j == st.idCount then st.info[o].randomPos else c.info[j].randomPos, if j == st.idCount then 1 else 0)
    ensures w.random == st.random[st.info[o].randomPos := st.idCount]
    ensures w.addr == (st.addr - {st.info[o].service.ip})[a.service.ip := st.idCount]
    ensures w.info == (st.info - {o})[st.idCount := EntryFor(a, source, nTimePenalty, st.info[o].randomPos)]
  {
    assert forall j :: j in st.info && j != o ==> j in w.info && w.info[j] == st.info[j];
  }

  /** Otherwise the address is dropped again; only the count of ids shows that it was there. */
  lemma AddRefused(h: Hashes, st: State, a: Address, source: NetAddr, nTimePenalty: int, now: int, lucky: bool)
    requires Whole(h, st) && a.routable && a.service.ip !in st.addr && NewSlot(h, a.service, source) in st.newTable
    ensures var o := st.newTable[NewSlot(h, a.service, source)];
      && o in st.info
      && (!IsTerrible(st.info[o], now) && st.info[o].refs <= 1 ==>
        Add(h, st, a, source, nTimePenalty, now, lucky) == (st.(idCount := st.idCount + 1), true))
  {
    hide Add, Mid, IsTerrible, NewSlot;
    UnknownIs(h, st, a, source, nTimePenalty, now, lucky);
    var w, c, id := Add(h, st, a, source, nTimePenalty, now, lucky).0, Created(st, a, source, nTimePenalty), st.idCount;
    var o := st.newTable[NewSlot(h, a.service, source)];
    if !IsTerrible(st.info[o], now) && st.info[o].refs <= 1 {
      assert Removed(c, id, w);
      var n := |st.random|;
      assert c.random[n := c.random[n]][..n] == st.random;
      assert (st.addr[a.service.ip := id]) - {a.service.ip} == st.addr;
      assert w.info.Keys == st.info.Keys;
      assert forall j :: j in w.info ==> w.info[j] == c.info[j] == st.info[j];
      assert w.info == st.info;
    }
  }

  // ---------------------------------------------------------------- adding what is known

  /** A repeated announcement makes the time newer if it is newer by more than an hour, or a day for an
      address not seen for a day, and the penalty. */
  function TimeAgain(i: Info, a: Address, source: NetAddr, nTimePenalty: int, now: int): nat {
    var slack := if now - a.time < 86400 then 3600 else 86400;
    var penalty := if a.service.ip == source then 0 else nTimePenalty;
    if a.time != 0 && (i.time == 0 || i.time + slack + penalty < a.time) then TimeKept(a, source, nTimePenalty) else i.time
  }

  /** The entry with newer time and more services. */
  function Renewed(i: Info, a: Address, source: NetAddr, nTimePenalty: int, now: int): Info {
    i.(time := TimeAgain(i, a, source, nTimePenalty, now), services := i.services + a.services)
  }

  /** One more reference is tried for: the announcement is newer than what is kept, the entry is a new one
      with fewer than eight references, and the draw admits it. */
  predicate Wanted(i: Info, a: Address, source: NetAddr, nTimePenalty: int, now: int, lucky: bool) {
    var time := TimeAgain(i, a, source, nTimePenalty, now);
    a.time != 0 && (time == 0 || a.time > time) && !i.inTried && i.refs < 8 && lucky
  }

  /** A known address keeps its entry; time and services are renewed, and one more reference is taken if it
      is wanted and its slot is free or held by another entry that is terrible. */
  lemma AddRenews(h: Hashes, st: State, a: Address, source: NetAddr, nTimePenalty: int, now: int, lucky: bool)
    requires Whole(h, st) && a.routable && a.service.ip in st.addr
    ensures st.addr[a.service.ip] in st.info
    ensures var id := st.addr[a.service.ip]; var i, r := st.info[id], Add(h, st, a, source, nTimePenalty, now, lucky);
      var c := st.(info := st.info[id := Renewed(i, a, source, nTimePenalty, now)]); var s := NewSlot(h, i.service, source);
      && !r.1 && (s in c.newTable ==> c.newTable[s] in c.info)
      && if Wanted(i, a, source, nTimePenalty, now, lucky) && (s in st.newTable ==> st.newTable[s] != id && IsTerrible(c.info[c.newTable[s]], now))
         then TakesSlot(c, s, id, r.0)
         else r.0 == c
  {
    var id := st.addr[a.service.ip];
    KnownRefs(h, st, id, a.service.ip);
    hide Mid, TakesSlot, Removed, IsTerrible, Insert, Add;
    var i := st.info[id];
    var n := Renewed(i, a, source, nTimePenalty, now);
    var c, s := Set(st, id, n), NewSlot(h, i.service, source);
    RestatKeeps(h, st, id, n, {}, {});
    KnownAdd(h, st, a, source, nTimePenalty, now, lucky);
    if s in c.newTable { HoldersCount(h, c, {}, s); }
    hide NewSlot;
    if !i.inTried { InsertIs(h, c, id, source, now, {}); }
  }

  lemma KnownAdd(h: Hashes, st: State, a: Address, source: NetAddr, nTimePenalty: int, now: int, lucky: bool)
    requires Whole(h, st) && a.routable && a.service.ip in st.addr
    ensures st.addr[a.service.ip] in st.info
    ensures var id := st.addr[a.service.ip]; var i := st.info[id]; var c := Set(st, id, Renewed(i, a, source, nTimePenalty, now));
      && Whole(h, c) && (i.refs == 0 ==> i.inTried)
      && Add(h, st, a, source, nTimePenalty, now, lucky) ==
        (if Wanted(i, a, source, nTimePenalty, now, lucky) then Insert(h, c, id, source, now) else c, false)
  {
    var id := st.addr[a.service.ip];
    KnownRefs(h, st, id, a.service.ip);
    var i, p := st.info[id], if a.service.ip == source then 0 else nTimePenalty;
    assert Refresh(i, a, p, now) == Renewed(i, a, source, nTimePenalty, now);
    hide Mid, Insert, Refresh;
    RestatKeeps(h, st, id, Renewed(i, a, source, nTimePenalty, now), {}, {});
  }

  lemma KnownRefs(h: Hashes, st: State, id: int, ip: NetAddr)
    requires Whole(h, st) && ip in st.addr && id == st.addr[ip]
    ensures id in st.info && st.info[id].refs <= 8 && (!st.info[id].inTried ==> st.info[id].refs > 0)
  {
    assert id !in {};
  }

  /** An address that cannot be routed to is not added. */
  lemma AddIgnores(h: Hashes, st: State, a: Address, source: NetAddr, nTimePenalty: int, now: int, lucky: bool)
    requires Whole(h, st) && !a.routable
    ensures Add(h, st, a, source, nTimePenalty, now, lucky) == (st, false)
  {
  }

  // ---------------------------------------------------------------- reports about connections

  /** The entry for exactly this address and port. */
  predicate KnownAs(st: State, s: Service, id: int) {
    s.ip in st.addr && st.addr[s.ip] == id && id in st.info && st.info[id].service == s
  }

  predicate Unheard(st: State, s: Service) {
    forall id :: id in st.info ==> st.info[id].service != s
  }

  /** An attempt is noted; a failure counts unless one was counted since the last success of any peer. */
  lemma AttemptNotes(st: State, s: Service, id: int, countFailure: bool, time: int)
    requires Index(st) && KnownAs(st, s, id)
    ensures var i := st.info[id]; var counts := countFailure && i.lastCountAttempt < st.lastGood;
      Attempt(st, s, countFailure, time) == st.(info := st.info[id := i.(lastTry := time,
        lastCountAttempt := if counts then time else i.lastCountAttempt, attempts := i.attempts + if counts then 1 else 0)])
  {
  }

  /** Between two successes a peer's failures count once. */
  lemma CountsOnce(st: State, s: Service, id: int, first: int, second: int)
    requires Index(st) && KnownAs(st, s, id) && st.lastGood <= first
    ensures var w := Attempt(st, s, true, first);
      && Index(w) && KnownAs(w, s, id)
      && KnownAs(Attempt(w, s, true, second), s, id) && Attempt(w, s, true, second).info[id].attempts == w.info[id].attempts
  {
    AttemptNotes(st, s, id, true, first);
    var w := Attempt(st, s, true, first);
    assert Index(w);
    AttemptNotes(w, s, id, true, second);
  }

  /** A connection renews the time, if it is more than twenty minutes old. */
  lemma ConnectedRenews(st: State, s: Service, id: int, time: int)
    requires Index(st) && KnownAs(st, s, id)
    ensures Connected(st, s, time) ==
      if time - st.info[id].time > 1200 then st.(info := st.info[id := st.info[id].(time := time % TIME_RANGE)]) else st
  {
    assert st.info[id := st.info[id]] == st.info;
  }

  lemma ServicesSet(st: State, s: Service, id: int, services: set<nat>)
    requires Index(st) && KnownAs(st, s, id)
    ensures SetServices(st, s, services) == st.(info := st.info[id := st.info[id].(services := services)])
  {
  }

  /** Reports about an address that is not known, or known with another port, change nothing but the time
      of the last success. */
  lemma UnheardIgnored(h: Hashes, st: State, s: Service, countFailure: bool, time: int, services: set<nat>)
    requires Whole(h, st) && Unheard(st, s)
    ensures Attempt(st, s, countFailure, time) == Connected(st, s, time) == SetServices(st, s, services) == st
    ensures Good(h, st, s, time) == st.(lastGood := time)
  {
    if s.ip in st.addr {
      var id := st.addr[s.ip];
      assert id in st.info;
    }
  }

  // ---------------------------------------------------------------- a success

  /** A new entry out of the new table and in a tried slot. */
  function InTried(st: State, id: int, s: Slot): State
    requires id in st.info
  {
    State(st.idCount, st.info[id := st.info[id].(refs := 0, inTried := true)], st.addr, st.random, st.nTried + 1, st.triedTable[s := id],
          st.nNew - 1, st.newTable - SlotsOf(st.newTable, id), st.lastGood)
  }

  /** A tried entry that lost its slot to another, before it has a reference again. */
  function OutOfTried(st: State, e: int): State
    requires e in st.info
  {
    st.(info := st.info[e := st.info[e].(inTried := false)], nTried := st.nTried - 1, nNew := st.nNew + 1)
  }

  lemma UnlinkIs(h: Hashes, st: State, id: int)
    requires Whole(h, st) && id in st.info && !st.info[id].inTried
    ensures Unlink(h, st, id) == st.(info := st.info[id := st.info[id].(refs := 0)], newTable := st.newTable - SlotsOf(st.newTable, id), nNew := st.nNew - 1)
  {
    assert (set s | s in st.newTable && Linked(h, st, s, id)) == SlotsOf(st.newTable, id);
  }

  /** Before the slot of an evicted entry is cleared. */
  lemma LeftTried(h: Hashes, u: State, s: Slot, id: int)
    requires Mid(h, u, {id}, {id}) && s in u.triedTable && u.triedTable[s] in u.info
    ensures var e := u.triedTable[s]; var y := LeaveTried(u, s); var home := HomeOf(h, u, s);
      && Index(y) && e != id && e in y.info && id in y.info && y.info[e].refs == 0 && Mid(h, y, {id, e}, {id, e})
      && (home in y.newTable ==> y.newTable[home] in y.info && y.newTable[home] != id && y.newTable[home] != e && y.info[y.newTable[home]].refs > 0)
  {
    var e, y := u.triedTable[s], LeaveTried(u, s);
    MakeRoomKeeps(h, u, s, id);
    LeaveTriedKeeps(h, u, s, {id}, {id});
    assert {id} + {e} == {id, e};
    hide HomeOf, MakeRoom, LeaveTried;
    if HomeOf(h, u, s) in y.newTable { HoldersCountAll(h, y, {id, e}, {id, e}, HomeOf(h, u, s)); }
    LooseRefs(y, {id, e}, e);
    LooseRefs(y, {id, e}, id);
  }

  lemma EvictIs(h: Hashes, u: State, s: Slot, id: int)
    requires Mid(h, u, {id}, {id}) && s in u.triedTable && u.triedTable[s] in u.info
    ensures var e := u.triedTable[s]; var y := LeaveTried(u, s); var home := HomeOf(h, u, s); var w := Evict(h, u, s, id);
      && e in y.info && e != id && (home in y.newTable ==> y.newTable[home] in y.info && y.newTable[home] != id)
      && TakesSlot(y, home, e, w.(nNew := w.nNew - 1))
  {
    hide Mid, Index, TakesSlot, LeaveTried, HomeOf, ClearNew;
    LeftTried(h, u, s, id);
    var e, y, home := u.triedTable[s], LeaveTried(u, s), HomeOf(h, u, s);
    ClearThenAdd(y, home, e);
    ClearedStays(y, home, e);
    var w := Evict(h, u, s, id);
    assert w.(nNew := w.nNew - 1) == AddRef(ClearNew(y, home), home, e);
  }

  lemma HoldersCountAll(h: Hashes, c: State, loose: set<int>, uncounted: set<int>, s: Slot)
    requires Mid(h, c, loose, uncounted) && s in c.newTable
    ensures c.newTable[s] in c.info && c.newTable[s] !in loose && c.info[c.newTable[s]].refs > 0
  {
    assert s in SlotsOf(c.newTable, c.newTable[s]);
  }

  /** An entry enters a tried slot and the counts follow. */
  function Tried(st: State, id: int, s: Slot): State
    requires id in st.info
  {
    st.(info := st.info[id := st.info[id].(inTried := true)], nTried := st.nTried + 1, triedTable := st.triedTable[s := id], nNew := st.nNew + 1)
  }

  lemma BesideFree(y: State, home: Slot, e: int, z: State, id: int, s: Slot)
    requires e in y.info && id in y.info && id != e && home !in y.newTable && TakesSlot(y, home, e, z)
    ensures id in z.info && TakesSlot(Tried(y, id, s), home, e, Tried(z, id, s))
  {
    TakesFree(y, home, e, z);
    var c, w := Tried(y, id, s), Tried(z, id, s);
    assert w.info[e := w.info[e].(refs := c.info[e].refs)] == c.info;
  }

  lemma BesideShared(y: State, home: Slot, e: int, z: State, id: int, s: Slot)
    requires e in y.info && id in y.info && id != e && home in y.newTable && TakesSlot.requires(y, home, e, z) && TakesSlot(y, home, e, z)
    requires y.newTable[home] != id && y.newTable[home] != e && y.info[y.newTable[home]].refs > 1
    ensures id in z.info && TakesSlot(Tried(y, id, s), home, e, Tried(z, id, s))
  {
    TakesShared(y, home, e, z);
    var c, w, o := Tried(y, id, s), Tried(z, id, s), y.newTable[home];
    assert w.info[e := w.info[e].(refs := c.info[e].refs)] == c.info[o := c.info[o].(refs := c.info[o].refs - 1)];
  }

  lemma BesideLast(y: State, home: Slot, e: int, z: State, id: int, s: Slot)
    requires e in y.info && id in y.info && id != e && home in y.newTable && TakesSlot.requires(y, home, e, z) && TakesSlot(y, home, e, z)
    requires y.newTable[home] != id && y.newTable[home] != e && y.info[y.newTable[home]].refs <= 1
    ensures id in z.info && TakesSlot(Tried(y, id, s), home, e, Tried(z, id, s))
  {
    TakesLast(y, home, e, z);
    var c, w, o := Tried(y, id, s), Tried(z, id, s), y.newTable[home];
    var v := w.(newTable := c.newTable, info := w.info[e := w.info[e].(refs := c.info[e].refs)]);
    assert v.info.Keys == c.info.Keys - {o};
    assert c.info[o] == y.info[o];
    assert Removed(c, o, v);
  }

  /** What else a tried slot that changes hands changes has no part in the exchange. */
  lemma TakesBeside(y: State, home: Slot, e: int, z: State, id: int, s: Slot)
    requires e in y.info && id in y.info && id != e && (home in y.newTable ==> y.newTable[home] in y.info && y.newTable[home] != id && y.newTable[home] != e)
    requires TakesSlot(y, home, e, z)
    ensures id in z.info && TakesSlot(Tried(y, id, s), home, e, Tried(z, id, s))
  {
    hide TakesSlot, Tried;
    if home !in y.newTable {
      BesideFree(y, home, e, z, id, s);
    } else if y.info[y.newTable[home]].refs > 1 {
      BesideShared(y, home, e, z, id, s);
    } else {
      BesideLast(y, home, e, z, id, s);
    }
  }

  lemma FreeTriedIs(h: Hashes, st: State, id: int)
    requires Whole(h, st) && id in st.info && !st.info[id].inTried && TriedSlot(h, st.info[id].service) !in st.triedTable
    ensures MakeTried(h, st, id) == InTried(st, id, TriedSlot(h, st.info[id].service))
  {
    UnlinkKeeps(h, st, id);
    UnlinkIs(h, st, id);
    hide Unlink, Mid;
    var i := st.info[id];
    SetAgain(st.info, id, i.(refs := 0), i.(refs := 0, inTried := true));
  }

  lemma TakenTriedIs(h: Hashes, st: State, id: int)
    requires Whole(h, st) && id in st.info && !st.info[id].inTried && TriedSlot(h, st.info[id].service) in st.triedTable
    ensures var s := TriedSlot(h, st.info[id].service); var e := st.triedTable[s];
      && e in st.info && e != id
      && var c, home := OutOfTried(InTried(st, id, s), e), NewSlot(h, st.info[e].service, st.info[e].source);
      && (home in c.newTable ==> c.newTable[home] in c.info && c.newTable[home] != e)
      && TakesSlot(c, home, e, MakeTried(h, st, id))
  {
    var s := TriedSlot(h, st.info[id].service);
    var e := st.triedTable[s];
    assert e in st.info && e != id;
    UnlinkKeeps(h, st, id);
    UnlinkIs(h, st, id);
    var u := Unlink(h, st, id);
    hide Unlink, Mid, TakesSlot, Evict, Tried, InTried, OutOfTried, TriedSlot, NewSlot;
    SwappedIs(h, u, s, id);
    TriedOut(st, id, s, e, u, LeaveTried(u, s));
  }

  lemma SwappedIs(h: Hashes, u: State, s: Slot, id: int)
    requires Mid(h, u, {id}, {id}) && s in u.triedTable && u.triedTable[s] in u.info && id in u.info
    ensures var e, y := u.triedTable[s], LeaveTried(u, s); var home := HomeOf(h, u, s);
      && e != id && id in y.info && e in Tried(y, id, s).info && id in Evict(h, u, s, id).info
      && (home in y.newTable ==> y.newTable[home] in Tried(y, id, s).info && y.newTable[home] != e)
      && TakesSlot(Tried(y, id, s), home, e, EnterTried(Evict(h, u, s, id), s, id))
  {
    hide Mid, TakesSlot, Evict, Index, LeaveTried, HomeOf;
    LeftTried(h, u, s, id);
    EvictIs(h, u, s, id);
    var y, x := LeaveTried(u, s), Evict(h, u, s, id);
    TakesBeside(y, HomeOf(h, u, s), u.triedTable[s], x.(nNew := x.nNew - 1), id, s);
    assert Tried(x.(nNew := x.nNew - 1), id, s) == EnterTried(x, s, id);
  }

  lemma TriedOut(st: State, id: int, s: Slot, e: int, u: State, y: State)
    requires id in st.info && e in st.info && e != id && s in st.triedTable && st.triedTable[s] == e
    requires u == st.(info := st.info[id := st.info[id].(refs := 0)], newTable := st.newTable - SlotsOf(st.newTable, id), nNew := st.nNew - 1)
    requires y == u.(info := u.info[e := u.info[e].(inTried := false)], triedTable := u.triedTable - {s}, nTried := u.nTried - 1)
    ensures Tried(y, id, s) == OutOfTried(InTried(st, id, s), e)
  {
    assert (st.triedTable - {s})[s := id] == st.triedTable[s := id];
    assert Tried(y, id, s).info == OutOfTried(InTried(st, id, s), e).info;
  }

  /** A success of a tried entry is noted; a new one moves to its tried slot, and an entry that held it
      goes back to the slot its own source gives it in the new table. */
  lemma GoodPromotes(h: Hashes, st: State, s: Service, id: int, time: int)
    requires Whole(h, st) && KnownAs(st, s, id)
    ensures var i, t, w := st.info[id], TriedSlot(h, s), Good(h, st, s, time);
      var b := st.(lastGood := time, info := st.info[id := i.(lastSuccess := time, lastTry := time, attempts := 0)]);
      if i.inTried then w == b
      else if t !in st.triedTable then w == InTried(b, id, t)
      else
        var e := st.triedTable[t];
        && e in st.info && e != id
        && var c, home := OutOfTried(InTried(b, id, t), e), NewSlot(h, st.info[e].service, st.info[e].source);
        (home in c.newTable ==> c.newTable[home] in c.info && c.newTable[home] != e) && TakesSlot(c, home, e, w)
  {
    var i := st.info[id].(lastSuccess := time, lastTry := time, attempts := 0);
    WholeIndex(h, st);
    assert Matches(st, s);
    hide Mid, TakesSlot, InTried, OutOfTried, MakeTried, TriedSlot, NewSlot, Index, FindsBucket;
    RestatKeeps(h, st, id, i, {}, {});
    var b := Set(st.(lastGood := time), id, i);
    assert b == Set(st, id, i).(lastGood := time);
    if !i.inTried {
      BucketFound(h, b, id);
      if TriedSlot(h, s) in st.triedTable {
        TakenTriedIs(h, b, id);
      } else {
        FreeTriedIs(h, b, id);
      }
    }
  }

  // ---------------------------------------------------------------- what is terrible

  /** An entry tried within the last minute is not terrible.  Any other is if its time is more than ten
      minutes ahead, unknown or more than thirty days back, or if it failed three times without a success
      ever, or ten times without one for a week. */
  lemma TerribleIff(i: Info, now: int)
    ensures IsTerrible(i, now) <==>
      && !(i.lastTry != 0 && now <= i.lastTry + 60)
      && !(0 < i.time <= now + 600 && now <= i.time + 2592000 && (i.lastSuccess == 0 ==> i.attempts < 3) && (i.lastSuccess + 604800 < now ==> i.attempts < 10))
  {
  }

  /** Who just succeeded is not terrible for a minute. */
  lemma GoodNotTerrible(h: Hashes, st: State, s: Service, id: int, time: int, now: int)
    requires Whole(h, st) && KnownAs(st, s, id) && time > 0 && time <= now <= time + 60
    ensures var w := Good(h, st, s, time); id in w.info && !IsTerrible(w.info[id], now)
  {
    WholeIndex(h, st);
    assert Matches(st, s);
    hide Mid, Index, Good, TakesSlot, TriedSlot, NewSlot, IsTerrible;
    GoodKeeps(h, st, s, time);
    GoodPromotes(h, st, s, id, time);
    var w, t := Good(h, st, s, time), TriedSlot(h, s);
    if !st.info[id].inTried && t in st.triedTable {
      var e := st.triedTable[t];
      var b := st.(lastGood := time, info := st.info[id := st.info[id].(lastSuccess := time, lastTry := time, attempts := 0)]);
      var c := OutOfTried(InTried(b, id, t), e);
      TakesKeeps(c, NewSlot(h, st.info[e].service, st.info[e].source), e, w, id);
    }
    TerribleIff(w.info[id], now);
  }

  /** An exchange of a slot leaves the times of an entry that stays as they are. */
  lemma TakesKeeps(c: State, s: Slot, e: int, w: State, id: int)
    requires e in c.info && (s in c.newTable ==> c.newTable[s] in c.info && c.newTable[s] != e) && TakesSlot(c, s, e, w) && id in c.info && id in w.info
    ensures w.info[id].lastTry == c.info[id].lastTry
  {
    hide TakesSlot;
    if s !in c.newTable {
      TakesFree(c, s, e, w);
    } else if c.info[c.newTable[s]].refs > 1 {
      TakesShared(c, s, e, w);
    } else {
      TakesLast(c, s, e, w);
    }
  }

  // ---------------------------------------------------------------- giving addresses

  /** The entries at the first n positions of the list that are not terrible are all among the answer. */
  ghost predicate NoneMissed(st: State, now: int, n: nat, got: seq<Info>)
    requires Index(st) && n <= |st.random|
  {
    forall k :: 0 <= k < n && !IsTerrible(st.info[st.random[k]], now) ==> st.info[st.random[k]] in got
  }

  ghost predicate OnlyMoved(info: map<int, Info>, info': map<int, Info>) {
    info.Keys == info'.Keys && forall j :: j in info && j in info' ==> info'[j] == info[j].(randomPos := info'[j].randomPos)
  }

  lemma SwapMoves(st: State, n: nat, p: int)
    requires Index(st) && n <= p < |st.random|
    ensures OnlyMoved(st.info, SwapRandom(st, n, p).info)
  {
  }

  lemma MissedStep(st: State, now: int, n: nat, p: int, got: seq<Info>)
    requires Index(st) && n <= p < |st.random| && NoneMissed(st, now, n, got)
    ensures var w := SwapRandom(st, n, p);
      && Index(w) && |w.random| == |st.random| && w.random[n] in w.info
      && var i := w.info[w.random[n]]; NoneMissed(w, now, n + 1, if IsTerrible(i, now) then got else got + [i])
  {
    hide SwapRandom, IsTerrible, Tame;
    SwapFacts(st, n, p);
  }

  lemma {:induction false} GathersAll(st: State, now: int, draw: nat -> nat, n: nat, got: seq<Info>)
    requires Index(st) && n <= |st.random| && NoneMissed(st, now, n, got)
    ensures var r := GetAddrFrom(st, now, draw, n, got);
      && Index(r.0) && |r.0.random| == |st.random| && OnlyMoved(st.info, r.0.info)
      && (|r.1| < GetAddrLimit(st) ==> NoneMissed(r.0, now, |st.random|, r.1))
    decreases |st.random| - n
  {
    hide Listed, Addressed, Draw, IsTerrible, SwapRandom, NoneMissed, GetAddrLimit;
    if n < |st.random| && |got| < GetAddrLimit(st) {
      GetAddrRound(st, now, draw, n, got);
      var p := Draw(draw, n, |st.random|);
      MissedStep(st, now, n, p, got);
      SwapMoves(st, n, p);
      var w := SwapRandom(st, n, p);
      GetAddrLimitOf(st, w);
      hide GetAddrFrom;
      var i := w.info[w.random[n]];
      GathersAll(w, now, draw, n + 1, if IsTerrible(i, now) then got else got + [i]);
    }
  }

  lemma TerribleAnywhere(i: Info, pos: int, now: int)
    ensures IsTerrible(i, now) == IsTerrible(i.(randomPos := pos), now)
  {
  }

  /** The answer holds at most 23 percent of the entries, rounded down, and at most 2500; if it holds fewer,
      it holds every entry that is not terrible. */
  lemma GetAddrGives(st: State, now: int, draw: nat -> nat)
    requires Index(st)
    ensures var ans := GetAddr(st, now, draw).1; var n := |st.random|;
      && |ans| <= 23 * n / 100 && |ans| <= 2500
      && (|ans| < 23 * n / 100 && |ans| < 2500 ==>
        forall id :: id in st.info && !IsTerrible(st.info[id], now) ==> exists pos :: st.info[id].(randomPos := pos) in ans)
  {
    assert NoneMissed(st, now, 0, []) && Gathered(st, now, 0, []);
    GathersAll(st, now, draw, 0, []);
    GetAddrAnswer(st, now, draw, 0, []);
    var (r, ans) := GetAddr(st, now, draw);
    GetAddrLimitOf(st, r);
    hide IsTerrible, GetAddrFrom;
    if |ans| < GetAddrLimit(st) {
      forall id | id in st.info && !IsTerrible(st.info[id], now) ensures exists pos :: st.info[id].(randomPos := pos) in ans {
        TerribleAnywhere(st.info[id], r.info[id].randomPos, now);
        assert r.info[id] == st.info[id].(randomPos := r.info[id].randomPos);
        var k := r.info[id].randomPos;
        assert r.random[k] == id;
      }
    }
  }
}
