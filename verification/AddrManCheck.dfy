/** The address manager's own consistency check, and its agreement with the invariant.

    The check runs on a snapshot.  Its three passes consume a set of tried ids and a map of
    outstanding references; it returns zero exactly on the states that `Checked` describes, and
    every state satisfying the invariant of `AddrMan` is one of them. */
module AddrManCheck {
  import opened AddrMan

  /** A lookup in a map that yields zero for a missing key. */
  function AddrOr0(m: map<NetAddr, int>, a: NetAddr): int { if a in m then m[a] else 0 }

  predicate InfoOk(st: State, id: int)
    requires id in st.info
  {
    var i := st.info[id];
    && (if i.inTried then i.lastSuccess != 0 && i.refs == 0 else 0 < i.refs <= MAX_REFERENCES)
    && AddrOr0(st.addr, i.service.ip) == id
    && 0 <= i.randomPos < |st.random| && st.random[i.randomPos] == id
    && i.lastTry >= 0 && i.lastSuccess >= 0
  }

  predicate TriedSlotOk(h: Hashes, st: State, s: Slot)
    requires s in st.triedTable
  {
    var id := st.triedTable[s];
    id in st.info && st.info[id].inTried && TriedSlot(h, st.info[id].service) == s
  }

  predicate NewSlotOk(h: Hashes, st: State, s: Slot)
    requires s in st.newTable
  {
    var id := st.newTable[s];
    id in st.info && !st.info[id].inTried && NewSlotIn(h, st.info[id].service, s.bucket) == s
  }

  /** What the check demands. */
  ghost predicate Checked(h: Hashes, st: State) {
    && |st.random| == st.nTried + st.nNew
    && (forall id :: id in st.info ==> InfoOk(st, id))
    && |TriedIds(st.info)| == st.nTried && |NewIds(st.info)| == st.nNew
    && (forall s :: s in st.triedTable ==> TriedSlotOk(h, st, s))
    && TriedIds(st.info) - st.triedTable.Values == {}
    && (forall s :: s in st.newTable ==> NewSlotOk(h, st, s))
    && Owed(st, st.newTable) == {}
  }

  /** Ids are handed out by counting up, and slots outside the bucket arrays do not exist. */
  ghost predicate InRange(st: State) {
    && 0 <= st.idCount && (forall id :: id in st.info ==> 0 <= id < st.idCount)
    && (forall s :: s in st.triedTable ==> s.bucket < TRIED_BUCKETS && s.pos < BUCKET_SIZE)
    && (forall s :: s in st.newTable ==> s.bucket < NEW_BUCKETS && s.pos < BUCKET_SIZE)
  }

  // ---------------------------------------------------------------- first pass: entries

  ghost function TriedBelow(info: map<int, Info>, n: int): set<int> {
    set id | id in info && info[id].inTried && id < n
  }

  ghost function NewBelow(info: map<int, Info>, n: int): set<int> {
    set id | id in info && !info[id].inTried && id < n
  }

  lemma BelowStep(info: map<int, Info>, n: int)
    ensures TriedBelow(info, n + 1) == TriedBelow(info, n) + (if n in info && info[n].inTried then {n} else {})
    ensures NewBelow(info, n + 1) == NewBelow(info, n) + (if n in info && !info[n].inTried then {n} else {})
  {
  }

  method CheckEntries(st: State) returns (err: int, setTried: set<int>, mapNew: map<int, int>)
    requires InRange(st)
    ensures err == 0 <==> forall id :: id in st.info ==> InfoOk(st, id)
    ensures err == 0 ==> setTried == TriedIds(st.info)
    ensures err == 0 ==> mapNew.Keys == NewIds(st.info) && forall id :: id in mapNew ==> mapNew[id] == st.info[id].refs
  {
    setTried, mapNew := {}, map[];
    assert TriedBelow(st.info, 0) == {} && NewBelow(st.info, 0) == {};
    for n := 0 to st.idCount
      invariant forall id :: id in st.info && id < n ==> InfoOk(st, id)
      invariant setTried == TriedBelow(st.info, n)
      invariant mapNew.Keys == NewBelow(st.info, n) && forall id :: id in mapNew ==> mapNew[id] == st.info[id].refs
    {
      BelowStep(st.info, n);
      if n in st.info {
        var info := st.info[n];
        if info.inTried {
          if info.lastSuccess == 0 { return -1, setTried, mapNew; }
          if info.refs != 0 { return -2, setTried, mapNew; }
          setTried := setTried + {n};
        } else {
          if info.refs < 0 || info.refs > MAX_REFERENCES { return -3, setTried, mapNew; }
          if info.refs == 0 { return -4, setTried, mapNew; }
          mapNew := mapNew[n := info.refs];
        }
        if AddrOr0(st.addr, info.service.ip) != n { return -5, setTried, mapNew; }
        if info.randomPos < 0 || info.randomPos >= |st.random| || st.random[info.randomPos] != n {
          return -14, setTried, mapNew;
        }
        if info.lastTry < 0 { return -6, setTried, mapNew; }
        if info.lastSuccess < 0 { return -8, setTried, mapNew; }
      }
    }
    assert TriedBelow(st.info, st.idCount) == TriedIds(st.info);
    assert NewBelow(st.info, st.idCount) == NewIds(st.info);
    return 0, setTried, mapNew;
  }

  // ---------------------------------------------------------------- table passes

  /** The part of a table that a pass has seen when it stands at bucket n, position i. */
  ghost function Seen(t: Table, n: nat, i: nat): Table {
    map s | s in t && (s.bucket < n || (s.bucket == n && s.pos < i)) :: t[s]
  }

  lemma SeenStep(t: Table, n: nat, i: nat)
    ensures Slot(n, i) !in Seen(t, n, i)
    ensures Seen(t, n, i + 1) == if Slot(n, i) in t then Seen(t, n, i)[Slot(n, i) := t[Slot(n, i)]] else Seen(t, n, i)
  {
  }

  lemma SeenRow(t: Table, n: nat)
    requires forall s :: s in t ==> s.pos < BUCKET_SIZE
    ensures Seen(t, n, BUCKET_SIZE) == Seen(t, n + 1, 0)
  {
  }

  lemma SeenAll(t: Table, buckets: nat)
    requires forall s :: s in t ==> s.bucket < buckets
    ensures Seen(t, buckets, 0) == t
  {
  }

  lemma SeenNone(t: Table)
    ensures Seen(t, 0, 0) == map[]
  {
  }

  /** The tried pass: good slots so far, and the tried ids not met in them. */
  ghost predicate TriedPass(h: Hashes, st: State, seen: Table, left: set<int>) {
    && (forall s :: s in seen ==> s in st.triedTable && seen[s] == st.triedTable[s] && TriedSlotOk(h, st, s))
    && left == TriedIds(st.info) - seen.Values
  }

  method CheckTried(h: Hashes, st: State, ids: set<int>) returns (err: int, left: set<int>)
    requires InRange(st) && ids == TriedIds(st.info)
    ensures err == 0 <==> forall s :: s in st.triedTable ==> TriedSlotOk(h, st, s)
    ensures err == 0 ==> left == TriedIds(st.info) - st.triedTable.Values
  {
    left := ids;
    SeenNone(st.triedTable);
    for n := 0 to TRIED_BUCKETS
      invariant TriedPass(h, st, Seen(st.triedTable, n, 0), left)
    {
      for i := 0 to BUCKET_SIZE
        invariant TriedPass(h, st, Seen(st.triedTable, n, i), left)
      {
        SeenStep(st.triedTable, n, i);
        var s := Slot(n, i);
        if s in st.triedTable {
          var id := st.triedTable[s];
          if id !in left {
            TriedTwice(h, st, Seen(st.triedTable, n, i), left, s);
            return -11, left;
          }
          var home := TriedSlot(h, st.info[id].service);
          if home.bucket != n { return -17, left; }
          if home.pos != i { return -18, left; }
          TriedNext(h, st, Seen(st.triedTable, n, i), left, s);
          left := left - {id};
        }
      }
      SeenRow(st.triedTable, n);
    }
    SeenAll(st.triedTable, TRIED_BUCKETS);
    return 0, left;
  }

  lemma TriedTwice(h: Hashes, st: State, seen: Table, left: set<int>, s: Slot)
    requires TriedPass(h, st, seen, left) && s in st.triedTable && s !in seen && st.triedTable[s] !in left
    ensures !TriedSlotOk(h, st, s)
  {
    var id := st.triedTable[s];
    if id in TriedIds(st.info) {
      assert id in seen.Values;
      var s' :| s' in seen && seen[s'] == id;
      assert TriedSlotOk(h, st, s');
    }
  }

  lemma TriedNext(h: Hashes, st: State, seen: Table, left: set<int>, s: Slot)
    requires TriedPass(h, st, seen, left) && s in st.triedTable && s !in seen && TriedSlotOk(h, st, s)
    ensures TriedPass(h, st, seen[s := st.triedTable[s]], left - {st.triedTable[s]})
  {
    var id := st.triedTable[s];
    assert seen[s := id].Values == seen.Values + {id} by {
      forall v ensures v in seen[s := id].Values <==> v in seen.Values + {id} {
        if v in seen.Values { var s' :| s' in seen && seen[s'] == v; assert seen[s := id][s'] == v; }
        if v == id { assert seen[s := id][s] == v; }
      }
    }
  }

  /** Entries with references that a part of the new table does not show. */
  ghost function Owed(st: State, seen: Table): set<int> {
    set id | id in st.info && !st.info[id].inTried && |SlotsOf(seen, id)| != st.info[id].refs
  }

  /** The new pass: good slots so far, and the references still outstanding. */
  ghost predicate NewPass(h: Hashes, st: State, seen: Table, left: map<int, int>) {
    && (forall s :: s in seen ==> s in st.newTable && seen[s] == st.newTable[s] && NewSlotOk(h, st, s))
    && left.Keys == Owed(st, seen)
    && (forall id :: id in left ==> |SlotsOf(seen, id)| + left[id] == st.info[id].refs && left[id] > 0)
  }

  lemma NewNext(h: Hashes, st: State, seen: Table, left: map<int, int>, s: Slot)
    requires NewPass(h, st, seen, left) && s in st.newTable && s !in seen && NewSlotOk(h, st, s) && st.newTable[s] in left
    ensures var id := st.newTable[s];
            NewPass(h, st, seen[s := id], if left[id] - 1 == 0 then left - {id} else left[id := left[id] - 1])
  {
    var id := st.newTable[s];
    forall j
      ensures |SlotsOf(seen[s := id], j)| == |SlotsOf(seen, j)| + (if j == id then 1 else 0)
    {
      SlotsAdd(seen, s, id, j);
    }
    if left[id] == 1 {
      assert Owed(st, seen[s := id]) == Owed(st, seen) - {id};
    } else {
      assert Owed(st, seen[s := id]) == Owed(st, seen);
    }
  }

  /** A slot beyond the last reference of its holder. */
  lemma NewTwice(h: Hashes, st: State, seen: Table, left: map<int, int>, s: Slot)
    requires NewPass(h, st, seen, left) && s in st.newTable && s !in seen && st.newTable[s] !in left && NewSlotOk(h, st, s)
    ensures st.newTable[s] in Owed(st, st.newTable)
  {
    var id := st.newTable[s];
    assert id !in Owed(st, seen);
    assert SlotsOf(seen, id) + {s} <= SlotsOf(st.newTable, id);
    Smaller(SlotsOf(seen, id) + {s}, SlotsOf(st.newTable, id));
  }

  lemma Smaller<T>(a: set<T>, b: set<T>)
    requires a <= b
    ensures |a| <= |b|
  {
    assert b == a + (b - a);
  }

  ghost predicate BadNew(h: Hashes, st: State) {
    (exists s :: s in st.newTable && !NewSlotOk(h, st, s)) || (exists id :: id in Owed(st, st.newTable))
  }

  method CheckNew(h: Hashes, st: State, counts: map<int, int>) returns (err: int, left: map<int, int>)
    requires InRange(st) && counts.Keys == NewIds(st.info)
    requires forall id :: id in counts ==> counts[id] == st.info[id].refs > 0
    ensures err != 0 ==> BadNew(h, st)
    ensures err == 0 ==> NewPass(h, st, st.newTable, left)
  {
    SeenNone(st.newTable);
    NewStart(h, st, counts);
    left := counts;
    hide *;
    for n := 0 to NEW_BUCKETS
      invariant NewPass(h, st, Seen(st.newTable, n, 0), left)
    {
      var e;
      e, left := NewRow(h, st, n, left);
      if e != 0 { return e, left; }
    }
    SeenAll(st.newTable, NEW_BUCKETS);
    return 0, left;
  }

  /** One bucket of the new pass. */
  method NewRow(h: Hashes, st: State, n: nat, left: map<int, int>) returns (err: int, left': map<int, int>)
    requires NewPass(h, st, Seen(st.newTable, n, 0), left) && forall s :: s in st.newTable ==> s.pos < BUCKET_SIZE
    ensures err == 0 ==> NewPass(h, st, Seen(st.newTable, n + 1, 0), left')
    ensures err != 0 ==> BadNew(h, st)
  {
    hide NewPass, Seen, BadNew;
    left' := left;
    for i := 0 to BUCKET_SIZE
      invariant NewPass(h, st, Seen(st.newTable, n, i), left')
    {
      var e;
      e, left' := NewVisit(h, st, n, i, left');
      if e != 0 { return e, left'; }
    }
    SeenRow(st.newTable, n);
    return 0, left';
  }

  lemma NewStart(h: Hashes, st: State, left: map<int, int>)
    requires left.Keys == NewIds(st.info) && forall id :: id in left ==> left[id] == st.info[id].refs > 0
    ensures NewPass(h, st, map[], left)
  {
    forall id
      ensures SlotsOf(map[], id) == {}
      ensures id in Owed(st, map[]) <==> id in NewIds(st.info)
    {
      assert id in NewIds(st.info) ==> id in left;
    }
    assert Owed(st, map[]) == NewIds(st.info);
  }

  /** One slot of the new pass. */
  method NewVisit(h: Hashes, st: State, n: nat, i: nat, left: map<int, int>) returns (err: int, left': map<int, int>)
    requires NewPass(h, st, Seen(st.newTable, n, i), left)
    ensures err == 0 ==> NewPass(h, st, Seen(st.newTable, n, i + 1), left')
    ensures err != 0 ==> BadNew(h, st)
  {
    SeenStep(st.newTable, n, i);
    var s := Slot(n, i);
    if s !in st.newTable { return 0, left; }
    var id := st.newTable[s];
    if id !in left {
      if NewSlotOk(h, st, s) { NewTwice(h, st, Seen(st.newTable, n, i), left, s); }
      return -12, left;
    }
    assert id in Owed(st, Seen(st.newTable, n, i));
    if NewSlotIn(h, st.info[id].service, n).pos != i { return -19, left; }
    NewNext(h, st, Seen(st.newTable, n, i), left, s);
    return 0, if left[id] - 1 == 0 then left - {id} else left[id := left[id] - 1];
  }

  // ---------------------------------------------------------------- the whole check

  lemma NewHaveRefs(st: State, mapNew: map<int, int>)
    requires mapNew.Keys == NewIds(st.info) && forall id :: id in mapNew ==> mapNew[id] == st.info[id].refs
    requires forall id :: id in st.info ==> InfoOk(st, id)
    ensures forall id :: id in mapNew ==> mapNew[id] == st.info[id].refs > 0
  {
    forall id | id in mapNew
      ensures st.info[id].refs > 0
    {
      assert id in NewIds(st.info) && InfoOk(st, id);
    }
  }

  /** Returns zero exactly when the state is as `Checked` says and the hash key is set. */
  method Check(h: Hashes, st: State, keyNull: bool) returns (err: int)
    requires InRange(st)
    ensures err == 0 <==> Checked(h, st) && !keyNull
  {
    hide InfoOk, TriedSlotOk, NewSlotOk, Owed, TriedIds, NewIds;
    if |st.random| != st.nTried + st.nNew { return -7; }
    var e, setTried, mapNew := CheckEntries(st);
    if e != 0 { return e; }
    if |setTried| != st.nTried { return -9; }
    assert |mapNew| == |mapNew.Keys|;
    if |mapNew| != st.nNew { return -10; }
    NewHaveRefs(st, mapNew);
    e, setTried := CheckTried(h, st, setTried);
    if e != 0 { return e; }
    e, mapNew := CheckNew(h, st, mapNew);
    if e != 0 { return e; }
    if |setTried| != 0 { return -13; }
    assert |mapNew| == |mapNew.Keys|;
    if |mapNew| != 0 { return -15; }
    if keyNull { return -16; }
    return 0;
  }

  // ---------------------------------------------------------------- the invariant implies it

  /** A list without repetitions is as long as the set of its members. */
  lemma {:induction false} ListSize(q: seq<int>)
    requires forall i, j :: 0 <= i < j < |q| ==> q[i] != q[j]
    ensures |set id | id in q| == |q|
  {
    if q != [] {
      var last := q[|q| - 1];
      var rest := q[..|q| - 1];
      assert q == rest + [last];
      ListSize(rest);
      assert (set id | id in q) == (set id | id in rest) + {last};
    } else {
      assert (set id | id in q) == {};
    }
  }

  lemma RandomSize(st: State)
    requires Index(st)
    ensures |st.random| == |TriedIds(st.info)| + |NewIds(st.info)|
  {
    var all := set id | id in st.random;
    ListSize(st.random);
    forall id
      ensures id in all <==> id in TriedIds(st.info) || id in NewIds(st.info)
    {
      if id in st.info { assert st.random[st.info[id].randomPos] == id; }
    }
    assert all == TriedIds(st.info) + NewIds(st.info);
    assert TriedIds(st.info) !! NewIds(st.info);
  }

  lemma TriedAllSeen(h: Hashes, st: State)
    requires TriedOk(h, st.info, st.triedTable)
    ensures forall s :: s in st.triedTable ==> TriedSlotOk(h, st, s)
    ensures TriedIds(st.info) - st.triedTable.Values == {}
  {
    forall id
      ensures id !in TriedIds(st.info) - st.triedTable.Values
    {
      if id in TriedIds(st.info) {
        assert st.triedTable[TriedSlot(h, st.info[id].service)] == id;
      }
    }
  }

  lemma NewAllSeen(h: Hashes, st: State)
    requires NewOk(h, st.info, st.newTable) && RefsOk(st.info, st.newTable, {})
    ensures forall s :: s in st.newTable ==> NewSlotOk(h, st, s)
    ensures Owed(st, st.newTable) == {}
  {
    forall id
      ensures id !in Owed(st, st.newTable)
    {
    }
  }

  lemma EntriesOk(h: Hashes, st: State)
    requires Index(st) && Stats(st.info) && NewOk(h, st.info, st.newTable) && RefsOk(st.info, st.newTable, {})
    ensures forall id :: id in st.info ==> InfoOk(st, id)
  {
    forall id | id in st.info
      ensures InfoOk(st, id)
    {
      if st.info[id].inTried {
        assert SlotsOf(st.newTable, id) == {};
      }
    }
  }

  /** Every consistent state passes the check. */
  lemma InvChecked(h: Hashes, st: State)
    requires Inv(h, st)
    ensures Checked(h, st)
  {
    assert NewIds(st.info) - {} == NewIds(st.info);
    hide Listed, Addressed, Stats, TriedOk, NewOk, RefsOk, InfoOk, TriedSlotOk, NewSlotOk, Owed;
    RandomSize(st);
    EntriesOk(h, st);
    TriedAllSeen(h, st);
    NewAllSeen(h, st);
  }
}
