/** The address manager's state and the steps of its operations.

    Six structures describe the same entries: the info table, the index by network address, the
    randomly ordered list of ids, the "new" and "tried" bucket tables, and two counters.  `Inv`
    collects what the manager's own consistency check demands, and is shown to be kept by every
    operation on every reachable state. */
module AddrMan {

  // ---------------------------------------------------------------- constants

  const TRIED_BUCKETS := 256
  const NEW_BUCKETS := 1024
  const BUCKET_SIZE := 64
  const MAX_REFERENCES := 8
  const HORIZON_DAYS := 30
  const RETRIES := 3
  const MAX_FAILURES := 10
  const MIN_FAIL_DAYS := 7

  // ---------------------------------------------------------------- state

  type NetAddr = nat

  /** An address with its port. */
  datatype Service = Service(ip: NetAddr, port: nat)

  datatype Address = Address(service: Service, services: set<nat>, time: nat, routable: bool)

  datatype Info = Info(service: Service, source: NetAddr, services: set<nat>, time: nat,
                       lastTry: int, lastCountAttempt: int, lastSuccess: int, attempts: int,
                       refs: int, inTried: bool, randomPos: int)

  datatype Slot = Slot(bucket: nat, pos: nat)

  /** Occupied slots only: a slot holding -1 is absent. */
  type Table = map<Slot, int>

  datatype State = State(idCount: int, info: map<int, Info>, addr: map<NetAddr, int>,
                         random: seq<int>, nTried: int, triedTable: Table, nNew: int, newTable: Table,
                         lastGood: int)

  /** The keyed hashes that choose buckets and positions, before reduction to a range. */
  datatype Hashes = Hashes(forTried: Service -> nat, forNew: (NetAddr, NetAddr) -> nat,
                           forPosition: (Service, bool, nat) -> nat)

  function NewSlotIn(h: Hashes, s: Service, bucket: nat): Slot {
    Slot(bucket, h.forPosition(s, true, bucket) % BUCKET_SIZE)
  }

  function NewSlot(h: Hashes, s: Service, source: NetAddr): Slot {
    NewSlotIn(h, s, h.forNew(s.ip, source) % NEW_BUCKETS)
  }

  function TriedSlot(h: Hashes, s: Service): Slot {
    var bucket := h.forTried(s) % TRIED_BUCKETS;
    Slot(bucket, h.forPosition(s, false, bucket) % BUCKET_SIZE)
  }

  function Empty(): State {
    State(0, map[], map[], [], 0, map[], 0, map[], 1)
  }

  predicate IsTerrible(i: Info, now: int) {
    if i.lastTry != 0 && i.lastTry >= now - 60 then false
    else
      || i.time > now + 10 * 60
      || i.time == 0 || now - i.time > HORIZON_DAYS * 24 * 60 * 60
      || (i.lastSuccess == 0 && i.attempts >= RETRIES)
      || (now - i.lastSuccess > MIN_FAIL_DAYS * 24 * 60 * 60 && i.attempts >= MAX_FAILURES)
  }

  // ---------------------------------------------------------------- consistency

  function SlotsOf(t: Table, id: int): set<Slot> {
    set s | s in t && t[s] == id
  }

  function TriedIds(info: map<int, Info>): set<int> {
    set id | id in info && info[id].inTried
  }

  function NewIds(info: map<int, Info>): set<int> {
    set id | id in info && !info[id].inTried
  }

  /** The random list is inverse to the info table. */
  ghost predicate Listed(st: State) {
    && 0 <= st.idCount
    && (forall id :: id in st.info ==>
          && 0 <= id < st.idCount
          && 0 <= st.info[id].randomPos < |st.random| && st.random[st.info[id].randomPos] == id)
    && (forall i :: 0 <= i < |st.random| ==> st.random[i] in st.info && st.info[st.random[i]].randomPos == i)
  }

  /** The address index is inverse to the info table. */
  ghost predicate Addressed(st: State) {
    && (forall id :: id in st.info ==> st.info[id].service.ip in st.addr && st.addr[st.info[id].service.ip] == id)
    && (forall a :: a in st.addr ==> st.addr[a] in st.info && st.info[st.addr[a]].service.ip == a)
  }

  ghost predicate Index(st: State) {
    Listed(st) && Addressed(st)
  }

  ghost predicate Stats(info: map<int, Info>) {
    forall id :: id in info ==>
      && info[id].lastTry >= 0 && info[id].lastSuccess >= 0
      && (info[id].inTried ==> info[id].lastSuccess != 0)
  }

  /** The tried table holds exactly the tried entries, each in the one slot its hash gives. */
  ghost predicate TriedOk(h: Hashes, info: map<int, Info>, t: Table) {
    && (forall s :: s in t ==> t[s] in info && info[t[s]].inTried && s == TriedSlot(h, info[t[s]].service))
    && (forall id :: id in info && info[id].inTried ==>
          var s := TriedSlot(h, info[id].service); s in t && t[s] == id)
  }

  /** Slots of the new table hold new entries at the position their hash gives. */
  ghost predicate NewOk(h: Hashes, info: map<int, Info>, t: Table) {
    forall s :: s in t ==>
      && s.bucket < NEW_BUCKETS && t[s] in info && !info[t[s]].inTried
      && s == NewSlotIn(h, info[t[s]].service, s.bucket)
  }

  /** Reference counts are exact; only a `loose` entry may have none. */
  ghost predicate RefsOk(info: map<int, Info>, t: Table, loose: set<int>) {
    && loose <= NewIds(info)
    && forall id :: id in info ==>
      && info[id].refs == |SlotsOf(t, id)| <= MAX_REFERENCES
      && (id in loose ==> info[id].refs == 0)
      && (id !in loose && !info[id].inTried ==> info[id].refs > 0)
  }

  ghost predicate Counted(info: map<int, Info>, nTried: int, nNew: int, uncounted: set<int>) {
    && nTried == |TriedIds(info)|
    && uncounted <= NewIds(info)
    && nNew == |NewIds(info) - uncounted|
  }

  /** Consistency in the middle of an operation: `loose` entries have no reference yet, and
      `uncounted` ones are left out of the count of new entries. */
  ghost predicate Mid(h: Hashes, st: State, loose: set<int>, uncounted: set<int>) {
    && Index(st)
    && TriedOk(h, st.info, st.triedTable)
    && NewOk(h, st.info, st.newTable)
    && RefsOk(st.info, st.newTable, loose)
    && Counted(st.info, st.nTried, st.nNew, uncounted)
    && uncounted <= loose
  }

  /** All the structures agree. */
  ghost predicate Whole(h: Hashes, st: State) {
    Mid(h, st, {}, {})
  }

  ghost predicate Inv(h: Hashes, st: State) {
    Whole(h, st) && Stats(st.info)
  }

  // ---------------------------------------------------------------- steps

  function Create(st: State, a: Address, source: NetAddr): State {
    var id := st.idCount;
    st.(idCount := id + 1,
        info := st.info[id := Info(a.service, source, a.services, a.time, 0, 0, 0, 0, 0, false, |st.random|)],
        addr := st.addr[a.service.ip := id],
        random := st.random + [id])
  }

  function SwapRandom(st: State, p1: int, p2: int): State
    requires Listed(st) && 0 <= p1 < |st.random| && 0 <= p2 < |st.random|
  {
    var id1, id2 := st.random[p1], st.random[p2];
    if p1 == p2 then st else
    st.(info := st.info[id1 := st.info[id1].(randomPos := p2)][id2 := st.info[id2].(randomPos := p1)],
        random := st.random[p1 := id2][p2 := id1])
  }

  function Delete(st: State, id: int): State
    requires Listed(st) && id in st.info
  {
    var w := SwapRandom(st, st.info[id].randomPos, |st.random| - 1);
    w.(random := w.random[..|w.random| - 1],
       addr := w.addr - {st.info[id].service.ip},
       info := w.info - {id},
       nNew := w.nNew - 1)
  }

  /** Takes one reference of an entry out of the new table. */
  function DropRef(st: State, s: Slot): State
    requires s in st.newTable && st.newTable[s] in st.info
  {
    var id := st.newTable[s];
    st.(info := st.info[id := st.info[id].(refs := st.info[id].refs - 1)], newTable := st.newTable - {s})
  }

  /** Enters a reference to an entry into a free slot of the new table. */
  function AddRef(st: State, s: Slot, id: int): State
    requires id in st.info
  {
    st.(info := st.info[id := st.info[id].(refs := st.info[id].refs + 1)], newTable := st.newTable[s := id])
  }

  function ClearNew(st: State, s: Slot): State
    requires Index(st) && (s in st.newTable ==> st.newTable[s] in st.info)
  {
    if s !in st.newTable then st else
    var id := st.newTable[s];
    var w := DropRef(st, s);
    if w.info[id].refs == 0 then DropRefIndex(st, s); Delete(w, id) else w
  }

  lemma DropRefIndex(st: State, s: Slot)
    requires Index(st) && s in st.newTable && st.newTable[s] in st.info
    ensures Index(DropRef(st, s))
  {
  }

  predicate Linked(h: Hashes, st: State, s: Slot, id: int)
    requires id in st.info
  {
    s in st.newTable && st.newTable[s] == id && s == NewSlotIn(h, st.info[id].service, s.bucket)
  }

  /** Takes every reference of an entry out of the new table. */
  function Unlink(h: Hashes, st: State, id: int): State
    requires id in st.info
  {
    var gone := set s | s in st.newTable && Linked(h, st, s, id);
    st.(info := st.info[id := st.info[id].(refs := st.info[id].refs - |gone|)],
        newTable := st.newTable - gone, nNew := st.nNew - 1)
  }

  function LeaveTried(st: State, s: Slot): State
    requires s in st.triedTable && st.triedTable[s] in st.info
  {
    var id := st.triedTable[s];
    st.(info := st.info[id := st.info[id].(inTried := false)], triedTable := st.triedTable - {s}, nTried := st.nTried - 1)
  }

  function EnterTried(st: State, s: Slot, id: int): State
    requires id in st.info
  {
    st.(info := st.info[id := st.info[id].(inTried := true)], triedTable := st.triedTable[s := id], nTried := st.nTried + 1)
  }

  // ---------------------------------------------------------------- small facts

  lemma SlotsRemove(t: Table, s: Slot, id: int)
    requires s in t
    ensures SlotsOf(t - {s}, id) == SlotsOf(t, id) - {s}
    ensures |SlotsOf(t - {s}, id)| == |SlotsOf(t, id)| - (if t[s] == id then 1 else 0)
  {
    if t[s] != id { assert SlotsOf(t - {s}, id) == SlotsOf(t, id); }
  }

  lemma SlotsAdd(t: Table, s: Slot, id: int, id': int)
    requires s !in t
    ensures |SlotsOf(t[s := id], id')| == |SlotsOf(t, id')| + (if id == id' then 1 else 0)
  {
    if id == id' {
      assert SlotsOf(t[s := id], id') == SlotsOf(t, id') + {s};
    } else {
      assert SlotsOf(t[s := id], id') == SlotsOf(t, id');
    }
  }

  // ---------------------------------------------------------------- steps keep consistency

  /** Entries play the same part in both tables: only statistics or list positions differ. */
  ghost predicate SameRoles(info: map<int, Info>, info': map<int, Info>) {
    && (forall id :: id in info <==> id in info')
    && (forall id :: id in info ==>
          && info[id].service == info'[id].service
          && info[id].inTried == info'[id].inTried
          && info[id].refs == info'[id].refs)
  }

  lemma SameTables(h: Hashes, st: State, w: State, loose: set<int>, uncounted: set<int>)
    requires TriedOk(h, st.info, st.triedTable) && NewOk(h, st.info, st.newTable)
    requires RefsOk(st.info, st.newTable, loose) && Counted(st.info, st.nTried, st.nNew, uncounted)
    requires w.triedTable == st.triedTable && w.newTable == st.newTable && w.nTried == st.nTried && w.nNew == st.nNew
    requires SameRoles(st.info, w.info)
    ensures TriedOk(h, w.info, w.triedTable) && NewOk(h, w.info, w.newTable)
    ensures RefsOk(w.info, w.newTable, loose) && Counted(w.info, w.nTried, w.nNew, uncounted)
  {
    SameIds(st.info, w.info);
    forall s | s in st.triedTable
      ensures var id := st.triedTable[s]; id in w.info && w.info[id].service == st.info[id].service && w.info[id].inTried
    {
    }
    forall s | s in st.newTable
      ensures var id := st.newTable[s]; id in w.info && w.info[id].service == st.info[id].service && !w.info[id].inTried
    {
    }
  }

  lemma SameIds(info: map<int, Info>, info': map<int, Info>)
    requires SameRoles(info, info')
    ensures NewIds(info) == NewIds(info') && TriedIds(info) == TriedIds(info')
  {
    forall id
      ensures id in NewIds(info) <==> id in NewIds(info')
      ensures id in TriedIds(info) <==> id in TriedIds(info')
    {
    }
  }

  lemma SwapListed(st: State, p1: int, p2: int)
    requires Listed(st) && 0 <= p1 < |st.random| && 0 <= p2 < |st.random|
    ensures Listed(SwapRandom(st, p1, p2))
  {
  }

  lemma SwapIndex(st: State, p1: int, p2: int)
    requires Index(st) && 0 <= p1 < |st.random| && 0 <= p2 < |st.random|
    ensures Index(SwapRandom(st, p1, p2))
  {
  }

  lemma SwapRoles(st: State, p1: int, p2: int)
    requires Listed(st) && 0 <= p1 < |st.random| && 0 <= p2 < |st.random|
    ensures SameRoles(st.info, SwapRandom(st, p1, p2).info)
  {
    var w := SwapRandom(st, p1, p2);
    forall id
      ensures id in st.info <==> id in w.info
      ensures id in st.info ==> w.info[id] == st.info[id].(randomPos := w.info[id].randomPos)
    {
    }
  }

  lemma SwapKeeps(h: Hashes, st: State, p1: int, p2: int, loose: set<int>, uncounted: set<int>)
    requires Mid(h, st, loose, uncounted) && 0 <= p1 < |st.random| && 0 <= p2 < |st.random|
    ensures Mid(h, SwapRandom(st, p1, p2), loose, uncounted)
  {
    hide Listed, Addressed, TriedOk, NewOk, RefsOk, Counted, SameRoles;
    SwapIndex(st, p1, p2);
    SwapRoles(st, p1, p2);
    SameTables(h, st, SwapRandom(st, p1, p2), loose, uncounted);
  }

  lemma DropListed(st: State, id: int)
    requires Listed(st) && id in st.info && st.info[id].randomPos == |st.random| - 1
    ensures Listed(st.(random := st.random[..|st.random| - 1], addr := st.addr - {st.info[id].service.ip},
                       info := st.info - {id}, nNew := st.nNew - 1))
  {
  }

  /** Everything that is left when the last entry of the random list goes. */
  lemma DropIndex(st: State, id: int)
    requires Index(st) && id in st.info && st.info[id].randomPos == |st.random| - 1
    ensures Index(st.(random := st.random[..|st.random| - 1], addr := st.addr - {st.info[id].service.ip},
                      info := st.info - {id}, nNew := st.nNew - 1))
  {
  }

  lemma DropTables(h: Hashes, st: State, id: int, loose: set<int>, uncounted: set<int>)
    requires TriedOk(h, st.info, st.triedTable) && NewOk(h, st.info, st.newTable)
    requires RefsOk(st.info, st.newTable, loose) && Counted(st.info, st.nTried, st.nNew, uncounted)
    requires id in st.info && id in loose && id !in uncounted
    ensures var w := st.(info := st.info - {id}, nNew := st.nNew - 1);
            && TriedOk(h, w.info, w.triedTable) && NewOk(h, w.info, w.newTable)
            && RefsOk(w.info, w.newTable, loose - {id}) && Counted(w.info, w.nTried, w.nNew, uncounted)
  {
    var info := st.info - {id};
    assert NewIds(info) == NewIds(st.info) - {id} && TriedIds(info) == TriedIds(st.info);
    assert NewIds(info) - uncounted == NewIds(st.info) - uncounted - {id};
    assert SlotsOf(st.newTable, id) == {};
    forall s | s in st.newTable
      ensures st.newTable[s] != id
    {
      assert st.newTable[s] == id ==> s in SlotsOf(st.newTable, id);
    }
  }

  lemma DeleteFrame(st: State, id: int)
    requires Listed(st) && id in st.info
    ensures var w := Delete(st, id);
            && (forall j :: j in w.info <==> j in st.info && j != id)
            && (forall j :: j in w.info ==> w.info[j] == st.info[j].(randomPos := w.info[j].randomPos))
            && w.newTable == st.newTable && w.triedTable == st.triedTable
  {
  }

  lemma SwapLast(st: State, id: int)
    requires Listed(st) && id in st.info
    ensures |st.random| > 0 && 0 <= st.info[id].randomPos < |st.random|
    ensures var w := SwapRandom(st, st.info[id].randomPos, |st.random| - 1);
            && id in w.info && w.info[id].randomPos == |w.random| - 1
            && w.info[id].service == st.info[id].service && w.addr == st.addr && w.nNew == st.nNew
  {
  }

  lemma DeleteKeeps(h: Hashes, st: State, id: int, loose: set<int>, uncounted: set<int>)
    requires Mid(h, st, loose, uncounted) && id in st.info && id in loose && id !in uncounted
    ensures Mid(h, Delete(st, id), loose - {id}, uncounted)
  {
    hide Listed, Addressed, TriedOk, NewOk, RefsOk, Counted;
    SwapLast(st, id);
    var w := SwapRandom(st, st.info[id].randomPos, |st.random| - 1);
    SwapKeeps(h, st, st.info[id].randomPos, |st.random| - 1, loose, uncounted);
    DropIndex(w, id);
    DropTables(h, w, id, loose, uncounted);
  }

  // Reference steps: they change the new table and the reference counts.

  lemma DropRefTables(h: Hashes, st: State, s: Slot, loose: set<int>)
    requires NewOk(h, st.info, st.newTable) && RefsOk(st.info, st.newTable, loose) && s in st.newTable
    ensures var id := st.newTable[s]; var w := DropRef(st, s);
            && id in w.info && id !in loose && NewOk(h, w.info, w.newTable)
            && RefsOk(w.info, w.newTable, if w.info[id].refs == 0 then loose + {id} else loose)
  {
    var id, w := st.newTable[s], DropRef(st, s);
    assert s in SlotsOf(st.newTable, id);
    forall j
      ensures j in NewIds(w.info) <==> j in NewIds(st.info)
      ensures j in st.info ==> w.info[j].refs == |SlotsOf(w.newTable, j)|
    {
      SlotsRemove(st.newTable, s, j);
    }
  }

  /** Changing reference counts touches neither the tried table nor the counters. */
  lemma SameTried(h: Hashes, st: State, id: int, refs: int, uncounted: set<int>)
    requires id in st.info && TriedOk(h, st.info, st.triedTable)
    requires Counted(st.info, st.nTried, st.nNew, uncounted)
    ensures var info := st.info[id := st.info[id].(refs := refs)];
            TriedOk(h, info, st.triedTable) && Counted(info, st.nTried, st.nNew, uncounted)
  {
    var info := st.info[id := st.info[id].(refs := refs)];
    forall j
      ensures j in NewIds(info) <==> j in NewIds(st.info)
      ensures j in TriedIds(info) <==> j in TriedIds(st.info)
    {
    }
    assert NewIds(info) == NewIds(st.info) && TriedIds(info) == TriedIds(st.info);
  }

  lemma DropRefKeeps(h: Hashes, st: State, s: Slot, loose: set<int>, uncounted: set<int>)
    requires Mid(h, st, loose, uncounted) && s in st.newTable && st.newTable[s] in st.info
    ensures var id := st.newTable[s]; var w := DropRef(st, s);
            id !in loose && Mid(h, w, if w.info[id].refs == 0 then loose + {id} else loose, uncounted)
  {
    hide Listed, Addressed, TriedOk, NewOk, RefsOk, Counted;
    DropRefIndex(st, s);
    DropRefTables(h, st, s, loose);
    SameTried(h, st, st.newTable[s], st.info[st.newTable[s]].refs - 1, uncounted);
  }

  /** Clearing a slot leaves it free and leaves every entry but its holder as it was. */
  lemma ClearNewKeeps(h: Hashes, st: State, s: Slot, loose: set<int>, uncounted: set<int>)
    requires Mid(h, st, loose, uncounted)
    ensures s in st.newTable ==> st.newTable[s] in st.info
    ensures var w := ClearNew(st, s);
            && Mid(h, w, loose, uncounted)
            && w.newTable == st.newTable - {s} && w.triedTable == st.triedTable
            && forall j :: j in st.info && (s in st.newTable ==> j != st.newTable[s]) ==>
                 j in w.info && w.info[j] == st.info[j].(randomPos := w.info[j].randomPos)
  {
    if s in st.newTable {
      var id := st.newTable[s];
      assert id in st.info;
      hide Listed, Addressed, TriedOk, NewOk, RefsOk, Counted;
      DropRefKeeps(h, st, s, loose, uncounted);
      var w := DropRef(st, s);
      if w.info[id].refs == 0 {
        DeleteKeeps(h, w, id, loose + {id}, uncounted);
        DeleteFrame(w, id);
        assert loose + {id} - {id} == loose;
      }
    } else {
      assert st.newTable == st.newTable - {s};
    }
  }

  lemma AddRefTables(h: Hashes, st: State, s: Slot, id: int, loose: set<int>)
    requires NewOk(h, st.info, st.newTable) && RefsOk(st.info, st.newTable, loose)
    requires s !in st.newTable && s.bucket < NEW_BUCKETS && id in st.info
    requires !st.info[id].inTried && st.info[id].refs < MAX_REFERENCES && s == NewSlotIn(h, st.info[id].service, s.bucket)
    ensures var w := AddRef(st, s, id);
            NewOk(h, w.info, w.newTable) && RefsOk(w.info, w.newTable, loose - {id})
  {
    var w := AddRef(st, s, id);
    forall j
      ensures j in NewIds(w.info) <==> j in NewIds(st.info)
      ensures j in st.info ==> w.info[j].refs == |SlotsOf(w.newTable, j)|
    {
      SlotsAdd(st.newTable, s, id, j);
    }
  }

  lemma AddRefKeeps(h: Hashes, st: State, s: Slot, id: int, loose: set<int>, uncounted: set<int>)
    requires Mid(h, st, loose, uncounted) && id !in uncounted
    requires s !in st.newTable && s.bucket < NEW_BUCKETS && id in st.info
    requires !st.info[id].inTried && st.info[id].refs < MAX_REFERENCES && s == NewSlotIn(h, st.info[id].service, s.bucket)
    ensures Mid(h, AddRef(st, s, id), loose - {id}, uncounted)
  {
    hide TriedOk, NewOk, RefsOk, Counted;
    assert Index(AddRef(st, s, id));
    AddRefTables(h, st, s, id, loose);
    SameTried(h, st, id, st.info[id].refs + 1, uncounted);
  }

  lemma UnlinkTables(h: Hashes, st: State, id: int)
    requires NewOk(h, st.info, st.newTable) && RefsOk(st.info, st.newTable, {})
    requires id in st.info && !st.info[id].inTried
    ensures var w := Unlink(h, st, id);
            NewOk(h, w.info, w.newTable) && RefsOk(w.info, w.newTable, {id})
  {
    var w := Unlink(h, st, id);
    var gone := set s | s in st.newTable && Linked(h, st, s, id);
    assert gone == SlotsOf(st.newTable, id);
    forall j
      ensures j in NewIds(w.info) <==> j in NewIds(st.info)
      ensures SlotsOf(w.newTable, j) == if j == id then {} else SlotsOf(st.newTable, j)
    {
    }
  }

  lemma UnlinkKeeps(h: Hashes, st: State, id: int)
    requires Whole(h, st) && id in st.info && !st.info[id].inTried
    ensures var w := Unlink(h, st, id); Mid(h, w, {id}, {id}) && w.info[id].refs == 0
  {
    hide TriedOk, NewOk, RefsOk;
    var w := Unlink(h, st, id);
    assert Index(w);
    UnlinkTables(h, st, id);
    SameTried(h, st, id, w.info[id].refs, {});
    assert NewIds(w.info) - {} == NewIds(w.info);
    assert id in NewIds(w.info);
    assert w.info[id].refs == 0 by { assert RefsOk(w.info, w.newTable, {id}); }
  }

  lemma LeaveTriedTables(h: Hashes, st: State, s: Slot, loose: set<int>, uncounted: set<int>)
    requires TriedOk(h, st.info, st.triedTable) && NewOk(h, st.info, st.newTable)
    requires RefsOk(st.info, st.newTable, loose) && Counted(st.info, st.nTried, st.nNew, uncounted)
    requires s in st.triedTable && uncounted <= loose
    ensures var id := st.triedTable[s]; var w := LeaveTried(st, s);
            && id in w.info && w.info[id].refs == 0
            && TriedOk(h, w.info, w.triedTable) && NewOk(h, w.info, w.newTable)
            && RefsOk(w.info, w.newTable, loose + {id})
            && Counted(w.info, w.nTried, w.nNew, uncounted + {id})
  {
    var id, w := st.triedTable[s], LeaveTried(st, s);
    assert SlotsOf(st.newTable, id) == {};
    forall j
      ensures j in NewIds(w.info) <==> j in NewIds(st.info) || j == id
      ensures j in TriedIds(w.info) <==> j in TriedIds(st.info) && j != id
    {
    }
    assert TriedIds(w.info) == TriedIds(st.info) - {id};
    assert NewIds(w.info) - (uncounted + {id}) == NewIds(st.info) - uncounted;
  }

  lemma LeaveTriedKeeps(h: Hashes, st: State, s: Slot, loose: set<int>, uncounted: set<int>)
    requires Mid(h, st, loose, uncounted) && s in st.triedTable && st.triedTable[s] in st.info
    ensures var id := st.triedTable[s]; Mid(h, LeaveTried(st, s), loose + {id}, uncounted + {id})
  {
    hide TriedOk, NewOk, RefsOk, Counted;
    assert Index(LeaveTried(st, s));
    LeaveTriedTables(h, st, s, loose, uncounted);
  }

  lemma EnterTriedTables(h: Hashes, st: State, s: Slot, id: int)
    requires TriedOk(h, st.info, st.triedTable) && NewOk(h, st.info, st.newTable)
    requires RefsOk(st.info, st.newTable, {id}) && Counted(st.info, st.nTried, st.nNew, {id})
    requires id in st.info && s == TriedSlot(h, st.info[id].service) && s !in st.triedTable
    ensures var w := EnterTried(st, s, id);
            && TriedOk(h, w.info, w.triedTable) && NewOk(h, w.info, w.newTable)
            && RefsOk(w.info, w.newTable, {}) && Counted(w.info, w.nTried, w.nNew, {})
  {
    var w := EnterTried(st, s, id);
    assert id in NewIds(st.info) && !st.info[id].inTried;
    EnterTriedCounts(st, s, id);
    hide Counted;
    forall s | s in st.newTable
      ensures st.newTable[s] != id
    {
      assert st.newTable[s] == id ==> s in SlotsOf(st.newTable, id);
    }
  }

  lemma EnterTriedCounts(st: State, s: Slot, id: int)
    requires id in st.info && !st.info[id].inTried && Counted(st.info, st.nTried, st.nNew, {id})
    ensures var w := EnterTried(st, s, id);
      Counted(w.info, w.nTried, w.nNew, {}) && forall j :: j in NewIds(w.info) <==> j in NewIds(st.info) && j != id
  {
    var w := EnterTried(st, s, id);
    forall j
      ensures j in NewIds(w.info) <==> j in NewIds(st.info) && j != id
      ensures j in TriedIds(w.info) <==> j in TriedIds(st.info) || j == id
    {
    }
    assert TriedIds(w.info) == TriedIds(st.info) + {id};
    assert NewIds(w.info) - {} == NewIds(st.info) - {id};
  }

  lemma EnterTriedKeeps(h: Hashes, st: State, s: Slot, id: int)
    requires Mid(h, st, {id}, {id}) && id in st.info
    requires s == TriedSlot(h, st.info[id].service) && s !in st.triedTable
    ensures Whole(h, EnterTried(st, s, id))
  {
    hide TriedOk, NewOk, RefsOk, Counted;
    assert Index(EnterTried(st, s, id));
    EnterTriedTables(h, st, s, id);
  }

  // ---------------------------------------------------------------- moving an entry to tried

  /** A loose entry holds no slot, so clearing a slot leaves it alone. */
  lemma LooseStays(h: Hashes, st: State, s: Slot, loose: set<int>, uncounted: set<int>, id: int)
    requires Mid(h, st, loose, uncounted) && id in loose
    requires s in st.newTable ==> st.newTable[s] in st.info
    ensures id in st.info && id in ClearNew(st, s).info
    ensures ClearNew(st, s).info[id] == st.info[id].(randomPos := ClearNew(st, s).info[id].randomPos)
  {
    assert id in NewIds(st.info);
    assert s in st.newTable && st.newTable[s] == id ==> s in SlotsOf(st.newTable, id);
    ClearNewKeeps(h, st, s, loose, uncounted);
  }

  /** Where the holder of a tried slot goes in the new table. */
  function HomeOf(h: Hashes, st: State, s: Slot): Slot
    requires s in st.triedTable && st.triedTable[s] in st.info
  {
    var i := st.info[st.triedTable[s]];
    NewSlot(h, i.service, i.source)
  }

  /** Takes the holder of a tried slot out of it and clears its place in the new table. */
  function MakeRoom(h: Hashes, st: State, s: Slot, id: int): State
    requires Mid(h, st, {id}, {id}) && s in st.triedTable && st.triedTable[s] in st.info
  {
    var w := LeaveTried(st, s);
    LeaveTriedKeeps(h, st, s, {id}, {id});
    ClearNewKeeps(h, w, HomeOf(h, st, s), {id, st.triedTable[s]}, {id, st.triedTable[s]});
    ClearNew(w, HomeOf(h, st, s))
  }

  lemma MakeRoomKeeps(h: Hashes, st: State, s: Slot, id: int)
    requires Mid(h, st, {id}, {id}) && s in st.triedTable && st.triedTable[s] in st.info
    ensures var evicted := st.triedTable[s]; var x := MakeRoom(h, st, s, id);
            && Mid(h, x, {id, evicted}, {id, evicted}) && s !in x.triedTable && HomeOf(h, st, s) !in x.newTable
            && id in st.info && id in x.info && x.info[id] == st.info[id].(randomPos := x.info[id].randomPos)
            && evicted != id && evicted in x.info && x.info[evicted].service == st.info[evicted].service
            && x.info[evicted].refs == 0 && !x.info[evicted].inTried
  {
    var evicted := st.triedTable[s];
    NotLoose(h, st, s, {id});
    hide Listed, Addressed, TriedOk, NewOk, RefsOk, Counted, ClearNew;
    var w := LeaveTried(st, s);
    LeaveTriedKeeps(h, st, s, {id}, {id});
    assert {id} + {evicted} == {id, evicted};
    ClearNewKeeps(h, w, HomeOf(h, st, s), {id, evicted}, {id, evicted});
    LooseStays(h, w, HomeOf(h, st, s), {id, evicted}, {id, evicted}, evicted);
    LooseStays(h, w, HomeOf(h, st, s), {id, evicted}, {id, evicted}, id);
    LooseRefs(w, {id, evicted}, evicted);
  }

  lemma NotLoose(h: Hashes, st: State, s: Slot, loose: set<int>)
    requires TriedOk(h, st.info, st.triedTable) && RefsOk(st.info, st.newTable, loose) && s in st.triedTable
    ensures st.triedTable[s] in st.info && st.triedTable[s] !in loose && loose <= st.info.Keys
  {
  }

  /** Moves the holder of a tried slot back to the new table. */
  function Evict(h: Hashes, st: State, s: Slot, id: int): State
    requires Mid(h, st, {id}, {id}) && s in st.triedTable && st.triedTable[s] in st.info
  {
    var evicted := st.triedTable[s];
    var x := MakeRoom(h, st, s, id);
    MakeRoomKeeps(h, st, s, id);
    x.(info := x.info[evicted := x.info[evicted].(refs := 1)], newTable := x.newTable[HomeOf(h, st, s) := evicted], nNew := x.nNew + 1)
  }

  /** An uncounted loose entry becomes a counted one. */
  lemma Recount(h: Hashes, st: State, loose: set<int>, uncounted: set<int>, id: int)
    requires Mid(h, st, loose, uncounted) && id in uncounted
    ensures Mid(h, st.(nNew := st.nNew + 1), loose, uncounted - {id})
  {
    hide TriedOk, NewOk, RefsOk;
    assert Index(st.(nNew := st.nNew + 1));
    assert NewIds(st.info) - (uncounted - {id}) == (NewIds(st.info) - uncounted) + {id};
  }

  lemma EvictKeeps(h: Hashes, st: State, s: Slot, id: int)
    requires Mid(h, st, {id}, {id}) && s in st.triedTable && st.triedTable[s] in st.info
    ensures var w := Evict(h, st, s, id);
            && Mid(h, w, {id}, {id}) && s !in w.triedTable
            && id in st.info && id in w.info && w.info[id] == st.info[id].(randomPos := w.info[id].randomPos)
  {
    hide Mid, MakeRoom;
    var evicted := st.triedTable[s];
    var x := MakeRoom(h, st, s, id);
    MakeRoomKeeps(h, st, s, id);
    Recount(h, x, {id, evicted}, {id, evicted}, evicted);
    assert {id, evicted} - {evicted} == {id};
    AddRefKeeps(h, x.(nNew := x.nNew + 1), HomeOf(h, st, s), evicted, {id, evicted}, {id});
  }

  lemma LooseRefs(st: State, loose: set<int>, id: int)
    requires RefsOk(st.info, st.newTable, loose) && id in loose
    ensures id in st.info && st.info[id].refs == 0 && !st.info[id].inTried
  {
    assert id in NewIds(st.info);
  }

  /** Puts an entry that was taken out of the new table into its tried slot. */
  function EnterTriedFor(h: Hashes, st: State, id: int): State
    requires Mid(h, st, {id}, {id}) && id in st.info
  {
    var s := TriedSlot(h, st.info[id].service);
    if s in st.triedTable then
      EvictKeeps(h, st, s, id);
      EnterTried(Evict(h, st, s, id), s, id)
    else EnterTried(st, s, id)
  }

  function MakeTried(h: Hashes, st: State, id: int): State
    requires Whole(h, st) && id in st.info && !st.info[id].inTried
  {
    UnlinkKeeps(h, st, id);
    EnterTriedFor(h, Unlink(h, st, id), id)
  }

  lemma MakeTriedKeeps(h: Hashes, st: State, id: int)
    requires Whole(h, st) && id in st.info && !st.info[id].inTried
    ensures Whole(h, MakeTried(h, st, id))
    ensures var w := MakeTried(h, st, id);
            && id in w.info && w.info[id].inTried && w.info[id].service == st.info[id].service
            && var s := TriedSlot(h, st.info[id].service); s in w.triedTable && w.triedTable[s] == id
  {
    hide Listed, Addressed, TriedOk, NewOk, RefsOk, Counted, Evict;
    var s := TriedSlot(h, st.info[id].service);
    var w := Unlink(h, st, id);
    UnlinkKeeps(h, st, id);
    if s in w.triedTable {
      TriedHolder(h, w, s);
      EvictKeeps(h, w, s, id);
      EnterTriedKeeps(h, Evict(h, w, s, id), s, id);
    } else {
      EnterTriedKeeps(h, w, s, id);
    }
  }

  lemma TriedHolder(h: Hashes, st: State, s: Slot)
    requires TriedOk(h, st.info, st.triedTable) && s in st.triedTable
    ensures st.triedTable[s] in st.info
  {
  }
}
