/** The address manager's public operations, and what every run of them keeps.

    Clocks and random draws are parameters of the operations. */
module AddrManOps {
  import opened Basics
  import opened AddrMan

  const GETADDR_MAX_PCT := 23
  const GETADDR_MAX := 2500

  /** Assignment of a 64-bit time to the 32-bit field of an address. */
  function U32(x: int): nat { x % 0x1_0000_0000 }

  function Set(st: State, id: int, i: Info): State {
    st.(info := st.info[id := i])
  }

  // ---------------------------------------------------------------- operations

  /** Tries to give an entry a reference in the bucket its source selects. */
  function Insert(h: Hashes, st: State, id: int, source: NetAddr, now: int): State
    requires Index(st) && NewOk(h, st.info, st.newTable) && id in st.info
  {
    var s := NewSlot(h, st.info[id].service, source);
    if s in st.newTable && st.newTable[s] == id then st
    else if s !in st.newTable || IsTerrible(st.info[st.newTable[s]], now)
            || (st.info[st.newTable[s]].refs > 1 && st.info[id].refs == 0) then
      ClearedStays(st, s, id);
      AddRef(ClearNew(st, s), s, id)
    else if st.info[id].refs == 0 then Delete(st, id)
    else st
  }

  lemma ClearedStays(st: State, s: Slot, id: int)
    requires Index(st) && (s in st.newTable ==> st.newTable[s] in st.info && st.newTable[s] != id) && id in st.info
    ensures id in ClearNew(st, s).info
    ensures ClearNew(st, s).info[id] == st.info[id].(randomPos := ClearNew(st, s).info[id].randomPos)
  {
    if s in st.newTable {
      DropRefIndex(st, s);
      DeleteFrame(DropRef(st, s), st.newTable[s]);
    }
  }

  /** A repeated announcement refreshes the time and the services. */
  function Refresh(i: Info, a: Address, penalty: int, now: int): Info {
    var interval := if now - a.time < 24 * 60 * 60 then 60 * 60 else 24 * 60 * 60;
    var t := if a.time != 0 && (i.time == 0 || i.time < a.time - interval - penalty)
             then U32(Max(0, a.time - penalty)) else i.time;
    i.(time := t, services := i.services + a.services)
  }

  function NewEntry(st: State, a: Address, source: NetAddr, penalty: int): State {
    var w := Create(st, a, source);
    var i := w.info[st.idCount];
    Set(w, st.idCount, i.(time := U32(Max(0, i.time - penalty)))).(nNew := w.nNew + 1)
  }

  /** A repeated announcement; `lucky` is the outcome of the draw that admits one more reference. */
  function AddKnown(h: Hashes, st: State, id: int, a: Address, source: NetAddr, penalty: int, now: int, lucky: bool): State
    requires Whole(h, st) && id in st.info
  {
    var i := Refresh(st.info[id], a, penalty, now);
    var w := Set(st, id, i);
    if a.time == 0 || (i.time != 0 && a.time <= i.time) || i.inTried || i.refs == MAX_REFERENCES
       || (i.refs > 0 && !lucky) then w
    else
      RestatKeeps(h, st, id, i, {}, {});
      Insert(h, w, id, source, now)
  }

  function AddUnknown(h: Hashes, st: State, a: Address, source: NetAddr, penalty: int, now: int): State
    requires Whole(h, st) && a.service.ip !in st.addr
  {
    NewEntryKeeps(h, st, a, source, penalty);
    Insert(h, NewEntry(st, a, source, penalty), st.idCount, source, now)
  }

  function Add(h: Hashes, st: State, a: Address, source: NetAddr, nTimePenalty: int, now: int, lucky: bool): (State, bool)
    requires Whole(h, st)
  {
    if !a.routable then (st, false) else
    var penalty := if a.service.ip == source then 0 else nTimePenalty;
    if a.service.ip in st.addr
    then (AddKnown(h, st, st.addr[a.service.ip], a, source, penalty, now, lucky), false)
    else (AddUnknown(h, st, a, source, penalty, now), true)
  }

  /** Some new bucket holds the entry where the search looks for it. */
  predicate FindsBucket(h: Hashes, st: State, id: int)
    requires id in st.info
  {
    exists b: nat | b < NEW_BUCKETS :: Linked(h, st, NewSlotIn(h, st.info[id].service, b), id)
  }

  /** The manager knows exactly this service, port included. */
  predicate Matches(st: State, s: Service)
    requires Index(st)
  {
    s.ip in st.addr && st.info[st.addr[s.ip]].service == s
  }

  function Good(h: Hashes, st: State, s: Service, time: int): State
    requires Whole(h, st)
  {
    var w := st.(lastGood := time);
    if !Matches(st, s) then w else
    var id := st.addr[s.ip];
    var i := st.info[id].(lastSuccess := time, lastTry := time, attempts := 0);
    RestatKeeps(h, st, id, i, {}, {});
    Promote(h, Set(w, id, i), id)
  }

  function Promote(h: Hashes, st: State, id: int): State
    requires Whole(h, st) && id in st.info
  {
    if st.info[id].inTried || !FindsBucket(h, st, id) then st else MakeTried(h, st, id)
  }

  function Attempt(st: State, s: Service, countFailure: bool, time: int): State
    requires Index(st)
  {
    if !Matches(st, s) then st else
    var i := st.info[st.addr[s.ip]];
    Set(st, st.addr[s.ip],
        if countFailure && i.lastCountAttempt < st.lastGood
        then i.(lastTry := time, lastCountAttempt := time, attempts := i.attempts + 1)
        else i.(lastTry := time))
  }

  function Connected(st: State, s: Service, time: int): State
    requires Index(st)
  {
    if !Matches(st, s) then st else
    var i := st.info[st.addr[s.ip]];
    Set(st, st.addr[s.ip], if time - i.time > 20 * 60 then i.(time := U32(time)) else i)
  }

  function SetServices(st: State, s: Service, services: set<nat>): State
    requires Index(st)
  {
    if !Matches(st, s) then st else
    var i := st.info[st.addr[s.ip]];
    Set(st, st.addr[s.ip], i.(services := services))
  }

  function GetAddrLimit(st: State): int {
    Min(GETADDR_MAX_PCT * |st.random| / 100, GETADDR_MAX)
  }

  /** The selection loop from index `n` on; `draw` gives the random numbers. */
  function GetAddrFrom(st: State, now: int, draw: nat -> nat, n: nat, got: seq<Info>): (State, seq<Info>)
    requires Index(st) && n <= |st.random|
    decreases |st.random| - n
  {
    if n == |st.random| || |got| >= GetAddrLimit(st) then (st, got) else
    var p := Draw(draw, n, |st.random|);
    SwapIndex(st, n, p);
    var w := SwapRandom(st, n, p);
    var i := w.info[w.random[n]];
    GetAddrFrom(w, now, draw, n + 1, if IsTerrible(i, now) then got else got + [i])
  }

  function GetAddr(st: State, now: int, draw: nat -> nat): (State, seq<Info>)
    requires Index(st)
  {
    GetAddrFrom(st, now, draw, 0, [])
  }

  // ---------------------------------------------------------------- structure is kept

  lemma RestatKeeps(h: Hashes, st: State, id: int, i: Info, loose: set<int>, uncounted: set<int>)
    requires Mid(h, st, loose, uncounted) && id in st.info
    requires i.service == st.info[id].service && i.inTried == st.info[id].inTried
    requires i.refs == st.info[id].refs && i.randomPos == st.info[id].randomPos
    ensures Mid(h, Set(st, id, i), loose, uncounted)
    ensures forall t :: Mid(h, Set(st, id, i).(lastGood := t), loose, uncounted)
  {
    hide TriedOk, NewOk, RefsOk, Counted;
    SameTables(h, st, Set(st, id, i), loose, uncounted);
    assert Index(Set(st, id, i));
    forall t
      ensures Index(Set(st, id, i).(lastGood := t))
    {
    }
  }

  lemma NewEntryKeeps(h: Hashes, st: State, a: Address, source: NetAddr, penalty: int)
    requires Whole(h, st) && a.service.ip !in st.addr
    ensures var w := NewEntry(st, a, source, penalty);
            Mid(h, w, {st.idCount}, {}) && w.info[st.idCount].refs == 0
  {
    var id, w := st.idCount, NewEntry(st, a, source, penalty);
    hide TriedOk, NewOk, RefsOk, Counted;
    assert Index(w);
    NewEntryShape(st, a, source, penalty);
    hide Listed, Addressed, NewEntry;
    JoinTables(h, st.info, id, w.info[id], st.triedTable, st.newTable);
    JoinCounts(st.info, id, w.info[id], st.nTried, st.nNew);
  }

  /** A new entry that is in no table yet. */
  lemma JoinTables(h: Hashes, info: map<int, Info>, id: int, i: Info, tried: Table, newTable: Table)
    requires id !in info && !i.inTried && i.refs == 0
    requires TriedOk(h, info, tried) && NewOk(h, info, newTable) && RefsOk(info, newTable, {})
    ensures TriedOk(h, info[id := i], tried) && NewOk(h, info[id := i], newTable) && RefsOk(info[id := i], newTable, {id})
  {
    assert SlotsOf(newTable, id) == {};
  }

  lemma JoinCounts(info: map<int, Info>, id: int, i: Info, nTried: int, nNew: int)
    requires id !in info && !i.inTried && Counted(info, nTried, nNew, {})
    ensures Counted(info[id := i], nTried, nNew + 1, {})
  {
    var info' := info[id := i];
    forall j
      ensures j in NewIds(info') <==> j in NewIds(info) || j == id
      ensures j in TriedIds(info') <==> j in TriedIds(info)
    {
    }
    assert TriedIds(info') == TriedIds(info);
    assert NewIds(info') - {} == (NewIds(info) - {}) + {id};
  }

  lemma NewEntryShape(st: State, a: Address, source: NetAddr, penalty: int)
    ensures var w := NewEntry(st, a, source, penalty); var id := st.idCount;
            && id in w.info && w.info == st.info[id := w.info[id]] && !w.info[id].inTried && w.info[id].refs == 0
            && w.newTable == st.newTable && w.triedTable == st.triedTable && w.nTried == st.nTried && w.nNew == st.nNew + 1
  {
  }

  lemma InsertKeeps(h: Hashes, st: State, id: int, source: NetAddr, now: int, loose: set<int>)
    requires Mid(h, st, loose, {}) && id in st.info && !st.info[id].inTried
    requires loose == (if st.info[id].refs == 0 then {id} else {}) && st.info[id].refs < MAX_REFERENCES
    ensures Whole(h, Insert(h, st, id, source, now))
  {
    var s := NewSlot(h, st.info[id].service, source);
    if s in st.newTable && st.newTable[s] == id {
      assert s in SlotsOf(st.newTable, id);
    } else {
      ClearedStays(st, s, id);
      ClearNewKeeps(h, st, s, loose, {});
      hide Listed, Addressed, TriedOk, NewOk, RefsOk, Counted, ClearNew;
      assert loose - {id} == {};
      if Insert(h, st, id, source, now) == AddRef(ClearNew(st, s), s, id) {
        AddRefKeeps(h, ClearNew(st, s), s, id, loose, {});
      } else if st.info[id].refs == 0 {
        DeleteKeeps(h, st, id, loose, {});
      }
    }
  }

  lemma AddKeeps(h: Hashes, st: State, a: Address, source: NetAddr, penalty: int, now: int, lucky: bool)
    requires Whole(h, st)
    ensures Whole(h, Add(h, st, a, source, penalty, now, lucky).0)
  {
    var p := if a.service.ip == source then 0 else penalty;
    if a.routable {
      if a.service.ip in st.addr {
        var id := st.addr[a.service.ip];
        assert id in st.info && id !in {} && (!st.info[id].inTried ==> 0 < st.info[id].refs <= MAX_REFERENCES);
        var i := Refresh(st.info[id], a, p, now);
        RestatKeeps(h, st, id, i, {}, {});
        hide Mid, Insert, Listed, Addressed, RefsOk, TriedOk, NewOk;
        if !i.inTried && i.refs < MAX_REFERENCES {
          InsertKeeps(h, Set(st, id, i), id, source, now, {});
        }
      } else {
        NewEntryKeeps(h, st, a, source, p);
        hide Mid, Insert;
        InsertKeeps(h, NewEntry(st, a, source, p), st.idCount, source, now, {st.idCount});
      }
    }
  }

  /** The "something bad happened" exit is never taken: a new entry is found in some bucket. */
  lemma BucketFound(h: Hashes, st: State, id: int)
    requires Whole(h, st) && id in st.info && !st.info[id].inTried
    ensures FindsBucket(h, st, id)
  {
    assert |SlotsOf(st.newTable, id)| > 0;
    var s :| s in SlotsOf(st.newTable, id);
    assert Linked(h, st, NewSlotIn(h, st.info[id].service, s.bucket), id);
  }

  lemma GoodKeeps(h: Hashes, st: State, s: Service, time: int)
    requires Whole(h, st)
    ensures Whole(h, Good(h, st, s, time))
    ensures Matches(st, s) ==>
              var w := Good(h, st, s, time); st.addr[s.ip] in w.info && w.info[st.addr[s.ip]].inTried
  {
    assert Index(st.(lastGood := time));
    if Matches(st, s) {
      var id := st.addr[s.ip];
      var i := st.info[id].(lastSuccess := time, lastTry := time, attempts := 0);
      RestatKeeps(h, st, id, i, {}, {});
      var x := Set(st.(lastGood := time), id, i);
      assert x == Set(st, id, i).(lastGood := time);
      if !i.inTried {
        hide Mid;
        BucketFound(h, x, id);
        MakeTriedKeeps(h, x, id);
      }
    }
  }

  lemma AttemptKeeps(h: Hashes, st: State, s: Service, countFailure: bool, time: int)
    requires Whole(h, st)
    ensures Whole(h, Attempt(st, s, countFailure, time))
  {
    if Matches(st, s) {
      var id := st.addr[s.ip];
      hide Mid;
      RestatKeeps(h, st, id, Attempt(st, s, countFailure, time).info[id], {}, {});
    }
  }

  lemma ConnectedKeeps(h: Hashes, st: State, s: Service, time: int)
    requires Whole(h, st)
    ensures Whole(h, Connected(st, s, time))
  {
    if Matches(st, s) {
      var id := st.addr[s.ip];
      hide Mid;
      RestatKeeps(h, st, id, Connected(st, s, time).info[id], {}, {});
    }
  }

  lemma SetServicesKeeps(h: Hashes, st: State, s: Service, services: set<nat>)
    requires Whole(h, st)
    ensures Whole(h, SetServices(st, s, services))
  {
    if Matches(st, s) {
      var id := st.addr[s.ip];
      hide Mid;
      RestatKeeps(h, st, id, SetServices(st, s, services).info[id], {}, {});
    }
  }

  // ---------------------------------------------------------------- statistics are kept

  /** The steps between two states kept the times of every remaining entry and made only `id`
      a tried one. */
  ghost predicate Tame(info: map<int, Info>, info': map<int, Info>, id: int) {
    forall j :: j in info' ==>
      && j in info
      && info'[j].lastTry == info[j].lastTry && info'[j].lastSuccess == info[j].lastSuccess
      && (info'[j].inTried ==> info[j].inTried || j == id)
  }

  lemma TameThen(info: map<int, Info>, info': map<int, Info>, info'': map<int, Info>, id: int)
    requires Tame(info, info', id) && Tame(info', info'', id)
    ensures Tame(info, info'', id)
  {
  }

  lemma TameSet(info: map<int, Info>, j: int, i: Info, id: int)
    requires j in info && i.lastTry == info[j].lastTry && i.lastSuccess == info[j].lastSuccess
    requires i.inTried ==> info[j].inTried || j == id
    ensures Tame(info, info[j := i], id)
  {
  }

  lemma TameStats(info: map<int, Info>, info': map<int, Info>, id: int)
    requires Tame(info, info', id) && Stats(info) && (id in info' && info'[id].inTried ==> info'[id].lastSuccess != 0)
    ensures Stats(info')
  {
  }

  lemma ClearNewTame(st: State, s: Slot, id: int)
    requires Index(st) && (s in st.newTable ==> st.newTable[s] in st.info)
    ensures Tame(st.info, ClearNew(st, s).info, id)
  {
    if s in st.newTable {
      DropRefIndex(st, s);
      DeleteFrame(DropRef(st, s), st.newTable[s]);
    }
  }

  lemma EvictTame(h: Hashes, st: State, s: Slot, id: int)
    requires Mid(h, st, {id}, {id}) && s in st.triedTable && st.triedTable[s] in st.info
    ensures Tame(st.info, Evict(h, st, s, id).info, id)
  {
    var evicted := st.triedTable[s];
    LeaveTriedKeeps(h, st, s, {id}, {id});
    MakeRoomKeeps(h, st, s, id);
    var w := LeaveTried(st, s);
    assert HomeOf(h, st, s) in w.newTable ==> w.newTable[HomeOf(h, st, s)] in w.info;
    assert Index(w);
    hide Mid, Listed, Addressed, Tame, ClearNew;
    var x := MakeRoom(h, st, s, id);
    ClearNewTame(w, HomeOf(h, st, s), id);
    TameSet(st.info, evicted, w.info[evicted], id);
    TameThen(st.info, w.info, x.info, id);
    TameSet(x.info, evicted, x.info[evicted].(refs := 1), id);
    TameThen(st.info, x.info, Evict(h, st, s, id).info, id);
  }

  lemma MakeTriedTame(h: Hashes, st: State, id: int)
    requires Whole(h, st) && id in st.info && !st.info[id].inTried
    ensures Tame(st.info, MakeTried(h, st, id).info, id)
  {
    UnlinkKeeps(h, st, id);
    var w := Unlink(h, st, id);
    assert forall s :: s in w.triedTable ==> w.triedTable[s] in w.info;
    hide Mid, Tame, Evict;
    TameSet(st.info, id, w.info[id], id);
    var s := TriedSlot(h, st.info[id].service);
    var x := w;
    if s in w.triedTable {
      x := Evict(h, w, s, id);
      EvictKeeps(h, w, s, id);
      EvictTame(h, w, s, id);
      TameThen(st.info, w.info, x.info, id);
    }
    TameSet(x.info, id, x.info[id].(inTried := true), id);
    TameThen(st.info, x.info, EnterTried(x, s, id).info, id);
  }

  lemma InsertTame(h: Hashes, st: State, id: int, source: NetAddr, now: int)
    requires Index(st) && NewOk(h, st.info, st.newTable) && id in st.info
    ensures Tame(st.info, Insert(h, st, id, source, now).info, id)
    ensures var w := Insert(h, st, id, source, now); id in w.info ==> w.info[id].inTried == st.info[id].inTried
  {
    var s := NewSlot(h, st.info[id].service, source);
    if !(s in st.newTable && st.newTable[s] == id) {
      ClearedStays(st, s, id);
      ClearNewTame(st, s, id);
      DeleteFrame(st, id);
      assert Tame(st.info, Delete(st, id).info, id);
      assert Tame(st.info, st.info, id);
      hide ClearNew, Delete, Tame, Listed, Addressed;
      var x := ClearNew(st, s);
      TameSet(x.info, id, x.info[id].(refs := x.info[id].refs + 1), id);
      TameThen(st.info, x.info, AddRef(x, s, id).info, id);
    }
  }

  /** A success keeps the statistics in order exactly when its time is positive. */
  lemma GoodStats(h: Hashes, st: State, s: Service, time: int)
    requires Inv(h, st)
    ensures Stats(Good(h, st, s, time).info) <==> (Matches(st, s) ==> time > 0)
  {
    if Matches(st, s) {
      var id := st.addr[s.ip];
      var i := st.info[id].(lastSuccess := time, lastTry := time, attempts := 0);
      var x := Set(st.(lastGood := time), id, i);
      GoodKeeps(h, st, s, time);
      if !i.inTried {
        RestatKeeps(h, st, id, i, {}, {});
        assert x == Set(st, id, i).(lastGood := time);
        hide TriedOk, NewOk, RefsOk, Counted;
        BucketFound(h, x, id);
        MakeTriedTame(h, x, id);
        hide MakeTried, Mid;
        if time > 0 { TameStats(x.info, Good(h, st, s, time).info, id); }
      }
      hide Good;
    }
  }

  lemma AttemptStats(st: State, s: Service, countFailure: bool, time: int)
    requires Index(st) && Stats(st.info)
    ensures Stats(Attempt(st, s, countFailure, time).info) <==> (Matches(st, s) ==> time >= 0)
  {
    if Matches(st, s) {
      var w := Attempt(st, s, countFailure, time);
      assert w.info[st.addr[s.ip]].lastTry == time;
    }
  }

  lemma AddKnownStats(h: Hashes, st: State, id: int, i: Info, source: NetAddr, now: int)
    requires Inv(h, st) && id in st.info && Stats(Set(st, id, i).info)
    requires i.service == st.info[id].service && i.inTried == st.info[id].inTried
    requires i.refs == st.info[id].refs && i.randomPos == st.info[id].randomPos
    ensures Index(Set(st, id, i)) && (!i.inTried ==> Stats(Insert(h, Set(st, id, i), id, source, now).info))
  {
    RestatKeeps(h, st, id, i, {}, {});
    var w := Set(st, id, i);
    hide TriedOk, NewOk, RefsOk, Counted;
    InsertTame(h, w, id, source, now);
    hide Insert, Listed, Addressed;
    if !i.inTried { TameStats(w.info, Insert(h, w, id, source, now).info, id); }
  }

  lemma AddUnknownStats(h: Hashes, st: State, a: Address, source: NetAddr, penalty: int, now: int)
    requires Inv(h, st) && a.service.ip !in st.addr
    ensures Index(NewEntry(st, a, source, penalty)) && Stats(AddUnknown(h, st, a, source, penalty, now).info)
  {
    NewEntryKeeps(h, st, a, source, penalty);
    var w := NewEntry(st, a, source, penalty);
    assert Stats(w.info);
    hide TriedOk, NewOk, RefsOk, Counted;
    InsertTame(h, w, st.idCount, source, now);
    hide Insert, Listed, Addressed;
    TameStats(w.info, Insert(h, w, st.idCount, source, now).info, st.idCount);
  }

  lemma AddStats(h: Hashes, st: State, a: Address, source: NetAddr, penalty: int, now: int, lucky: bool)
    requires Inv(h, st)
    ensures Stats(Add(h, st, a, source, penalty, now, lucky).0.info)
  {
    var p := if a.service.ip == source then 0 else penalty;
    if a.routable {
      if a.service.ip in st.addr {
        var id := st.addr[a.service.ip];
        var i := Refresh(st.info[id], a, p, now);
        assert Stats(Set(st, id, i).info);
        hide Mid, Insert;
        AddKnownStats(h, st, id, i, source, now);
      } else {
        hide Mid, Insert;
        AddUnknownStats(h, st, a, source, p, now);
      }
    }
  }

  // ---------------------------------------------------------------- GetAddr

  /** A swap of two list positions, seen from the rest of the state. */
  lemma SwapFacts(st: State, n: nat, p: int)
    requires Index(st) && n <= p < |st.random|
    ensures var w := SwapRandom(st, n, p);
            && Index(w) && |w.random| == |st.random| && w == st.(info := w.info, random := w.random)
            && Tame(st.info, w.info, -1)
            && w.random[n] in w.info && w.info[w.random[n]].randomPos == n
    ensures var w := SwapRandom(st, n, p);
            forall k :: 0 <= k < n ==>
              w.random[k] == st.random[k] && w.random[k] in w.info && w.info[w.random[k]] == st.info[st.random[k]]
  {
    SwapIndex(st, n, p);
  }

  function Draw(draw: nat -> nat, n: nat, size: nat): (p: int)
    requires n < size
    ensures n <= p < size
  {
    n + draw(n) % (size - n)
  }

  lemma WholeIndex(h: Hashes, st: State)
    requires Whole(h, st)
    ensures Index(st)
  {
  }

  /** One round of the loop: a swap and perhaps an answer more. */
  lemma GetAddrRound(st: State, now: int, draw: nat -> nat, n: nat, got: seq<Info>)
    requires Index(st) && n < |st.random| && |got| < GetAddrLimit(st)
    ensures var p := Draw(draw, n, |st.random|);
            && n <= p < |st.random|
            && var w := SwapRandom(st, n, p);
            && Index(w) && n + 1 <= |w.random| == |st.random| && w.random[n] in w.info
            && var i := w.info[w.random[n]];
               GetAddrFrom(st, now, draw, n, got) == GetAddrFrom(w, now, draw, n + 1, if IsTerrible(i, now) then got else got + [i])
  {
    SwapFacts(st, n, Draw(draw, n, |st.random|));
    hide SwapRandom, Draw, IsTerrible, Listed, Addressed, Tame;
  }

  lemma SwapRound(h: Hashes, st: State, n: nat, p: int)
    requires Whole(h, st) && n <= p < |st.random|
    ensures Index(st) && var w := SwapRandom(st, n, p);
            Whole(h, w) && Tame(st.info, w.info, -1) && w == st.(info := w.info, random := w.random)
  {
    WholeIndex(h, st);
    hide Mid, Listed, Addressed, SwapRandom, Tame;
    SwapKeeps(h, st, n, p, {}, {});
    SwapFacts(st, n, p);
  }

  lemma {:induction false} GetAddrKeeps(h: Hashes, st: State, now: int, draw: nat -> nat, n: nat, got: seq<Info>)
    requires Whole(h, st) && Index(st) && n <= |st.random|
    ensures var r := GetAddrFrom(st, now, draw, n, got).0;
            && Whole(h, r) && Tame(st.info, r.info, -1)
            && r == st.(info := r.info, random := r.random)
    decreases |st.random| - n
  {
    hide Mid, Listed, Addressed, Draw, IsTerrible, SwapRandom;
    if n < |st.random| && |got| < GetAddrLimit(st) {
      GetAddrRound(st, now, draw, n, got);
      hide GetAddrFrom, Tame, GetAddrLimit;
      var p := Draw(draw, n, |st.random|);
      SwapRound(h, st, n, p);
      var w := SwapRandom(st, n, p);
      var i := w.info[w.random[n]];
      GetAddrKeeps(h, w, now, draw, n + 1, if IsTerrible(i, now) then got else got + [i]);
      TameThen(st.info, w.info, GetAddrFrom(st, now, draw, n, got).0.info, -1);
    }
  }

  /** What the answer may hold while the loop stands at index `n`: not terrible, at most one per
      list position passed, each an entry of the table. */
  ghost predicate Gathered(st: State, now: int, n: nat, got: seq<Info>)
    requires Index(st) && n <= |st.random|
  {
    && (forall k :: 0 <= k < |got| ==>
          && !IsTerrible(got[k], now)
          && 0 <= got[k].randomPos < n && got[k] == st.info[st.random[got[k].randomPos]])
    && (forall k, l :: 0 <= k < l < |got| ==> got[k].randomPos < got[l].randomPos)
  }

  lemma GatheredStep(st: State, now: int, n: nat, p: int, got: seq<Info>)
    requires Index(st) && n <= p < |st.random| && Gathered(st, now, n, got)
    ensures var w := SwapRandom(st, n, p);
            && Index(w) && |w.random| == |st.random| && w.random[n] in w.info
            && var i := w.info[w.random[n]]; Gathered(w, now, n + 1, if IsTerrible(i, now) then got else got + [i])
  {
    hide SwapRandom, IsTerrible, Tame;
    SwapFacts(st, n, p);
  }

  /** Every address returned is a known entry that is not terrible, none is returned twice, and
      there are no more of them than 23 percent of the entries, rounded down, or 2500. */
  lemma {:induction false} GetAddrAnswer(st: State, now: int, draw: nat -> nat, n: nat, got: seq<Info>)
    requires Index(st) && n <= |st.random| && Gathered(st, now, n, got) && |got| <= GetAddrLimit(st)
    ensures var (r, ans) := GetAddrFrom(st, now, draw, n, got);
            && Index(r) && |r.random| == |st.random| && Gathered(r, now, |r.random|, ans)
            && |ans| <= GetAddrLimit(r)
    decreases |st.random| - n
  {
    hide Listed, Addressed, Draw, IsTerrible, SwapRandom, GetAddrFrom, Gathered, GetAddrLimit;
    if n < |st.random| && |got| < GetAddrLimit(st) {
      GetAddrRound(st, now, draw, n, got);
      var p := Draw(draw, n, |st.random|);
      GatheredStep(st, now, n, p, got);
      GetAddrLimitOf(st, SwapRandom(st, n, p));
      var w := SwapRandom(st, n, p);
      var i := w.info[w.random[n]];
      AnswerSize(st, got, i, now);
      GetAddrAnswer(w, now, draw, n + 1, if IsTerrible(i, now) then got else got + [i]);
    } else {
      GetAddrStops(st, now, draw, n, got);
    }
  }

  lemma AnswerSize(st: State, got: seq<Info>, i: Info, now: int)
    requires |got| < GetAddrLimit(st)
    ensures |if IsTerrible(i, now) then got else got + [i]| <= GetAddrLimit(st)
  {
  }

  lemma GetAddrStops(st: State, now: int, draw: nat -> nat, n: nat, got: seq<Info>)
    requires Index(st) && n <= |st.random| && Gathered(st, now, n, got) && (n == |st.random| || |got| >= GetAddrLimit(st))
    ensures GetAddrFrom(st, now, draw, n, got) == (st, got) && Gathered(st, now, |st.random|, got)
  {
  }

  lemma GetAddrLimitOf(st: State, w: State)
    requires |st.random| == |w.random|
    ensures GetAddrLimit(st) == GetAddrLimit(w)
  {
  }

  // ---------------------------------------------------------------- runs

  datatype Op =
    | DoAdd(a: Address, source: NetAddr, penalty: int, now: int, lucky: bool)
    | DoGood(s: Service, time: int)
    | DoAttempt(s: Service, countFailure: bool, time: int)
    | DoConnected(s: Service, time: int)
    | DoSetServices(s: Service, services: set<nat>)
    | DoGetAddr(now: int, draw: nat -> nat)

  function Step(h: Hashes, st: State, op: Op): State
    requires Whole(h, st)
  {
    match op
    case DoAdd(a, source, penalty, now, lucky) => Add(h, st, a, source, penalty, now, lucky).0
    case DoGood(s, time) => Good(h, st, s, time)
    case DoAttempt(s, countFailure, time) => Attempt(st, s, countFailure, time)
    case DoConnected(s, time) => Connected(st, s, time)
    case DoSetServices(s, services) => SetServices(st, s, services)
    case DoGetAddr(now, draw) => GetAddr(st, now, draw).0
  }

  /** The clock readings the consistency check can live with. */
  predicate Timely(op: Op) {
    (op.DoGood? ==> op.time > 0) && (op.DoAttempt? ==> op.time >= 0)
  }

  lemma StepKeeps(h: Hashes, st: State, op: Op)
    requires Whole(h, st)
    ensures Whole(h, Step(h, st, op))
  {
    WholeIndex(h, st);
    hide Add, Good, Attempt, Connected, SetServices, Mid, Listed, Addressed;
    match op {
      case DoAdd(a, source, penalty, now, lucky) => AddKeeps(h, st, a, source, penalty, now, lucky);
      case DoGood(s, time) => GoodKeeps(h, st, s, time);
      case DoAttempt(s, c, time) => AttemptKeeps(h, st, s, c, time);
      case DoConnected(s, time) => ConnectedKeeps(h, st, s, time);
      case DoSetServices(s, services) => SetServicesKeeps(h, st, s, services);
      case DoGetAddr(now, draw) => GetAddrKeeps(h, st, now, draw, 0, []);
    }
  }

  lemma StepStats(h: Hashes, st: State, op: Op)
    requires Inv(h, st) && Timely(op)
    ensures Stats(Step(h, st, op).info)
  {
    match op {
      case DoAdd(a, source, penalty, now, lucky) => AddStats(h, st, a, source, penalty, now, lucky);
      case DoGood(s, time) => GoodStats(h, st, s, time);
      case DoAttempt(s, c, time) => AttemptStats(st, s, c, time);
      case DoConnected(s, time) => assert Stats(Connected(st, s, time).info);
      case DoSetServices(s, services) => assert Stats(SetServices(st, s, services).info);
      case DoGetAddr(now, draw) =>
        GetAddrKeeps(h, st, now, draw, 0, []);
        assert -1 !in GetAddr(st, now, draw).0.info;
        TameStats(st.info, GetAddr(st, now, draw).0.info, -1);
    }
  }

  function Run(h: Hashes, st: State, ops: seq<Op>): State
    requires Whole(h, st)
    decreases |ops|
  {
    if ops == [] then st else
    StepKeeps(h, st, ops[0]);
    Run(h, Step(h, st, ops[0]), ops[1..])
  }

  lemma EmptyInv(h: Hashes)
    ensures Inv(h, Empty())
  {
    assert NewIds(map[]) - {} == {} && TriedIds(map[]) == {};
  }

  /** Main theorem.  Every state a run of operations reaches from a consistent one is
      consistent, whatever the hashes, the clock and the random draws. */
  lemma {:induction false} RunKeeps(h: Hashes, st: State, ops: seq<Op>)
    requires Inv(h, st) && forall i :: 0 <= i < |ops| ==> Timely(ops[i])
    ensures Inv(h, Run(h, st, ops))
    decreases |ops|
  {
    if ops != [] {
      StepKeeps(h, st, ops[0]);
      StepStats(h, st, ops[0]);
      hide Step, Mid, Stats;
      RunKeeps(h, Step(h, st, ops[0]), ops[1..]);
    }
  }
}
