/** The address manager object, changed in place.

    `Snapshot` gives its abstract state; every method is proved to act on it as the function of
    the same name, and the assertions of the original are asserted here and hold. */
module AddrManager {
  import opened Basics
  import opened AddrMan
  import Ops = AddrManOps

  ghost function AllSlots(buckets: nat): set<Slot> {
    set b, p | 0 <= b < buckets && 0 <= p < BUCKET_SIZE :: Slot(b, p)
  }

  class Manager {
    const h: Hashes
    const vvNew: array2<int>
    const vvTried: array2<int>
    var nIdCount: int
    var mapInfo: map<int, Info>
    var mapAddr: map<NetAddr, int>
    var vRandom: seq<int>
    var nTried: int
    var nNew: int
    var nLastGood: int

    ghost predicate Shaped() {
      && vvNew.Length0 == NEW_BUCKETS && vvNew.Length1 == BUCKET_SIZE
      && vvTried.Length0 == TRIED_BUCKETS && vvTried.Length1 == BUCKET_SIZE
      && vvNew != vvTried
    }

    ghost function NewTable(): Table
      requires Shaped()
      reads vvNew
    {
      map s | s in AllSlots(NEW_BUCKETS) && vvNew[s.bucket, s.pos] != -1 :: vvNew[s.bucket, s.pos]
    }

    ghost function TriedTable(): Table
      requires Shaped()
      reads vvTried
    {
      map s | s in AllSlots(TRIED_BUCKETS) && vvTried[s.bucket, s.pos] != -1 :: vvTried[s.bucket, s.pos]
    }

    ghost function Snapshot(): State
      requires Shaped()
      reads this, vvNew, vvTried
    {
      State(nIdCount, mapInfo, mapAddr, vRandom, nTried, TriedTable(), nNew, NewTable(), nLastGood)
    }

    constructor (h: Hashes)
      ensures Shaped() && this.h == h && fresh(vvNew) && fresh(vvTried)
      ensures Snapshot() == Empty() && Inv(h, Snapshot())
    {
      this.h := h;
      vvNew := new int[NEW_BUCKETS, BUCKET_SIZE]((b, p) => -1);
      vvTried := new int[TRIED_BUCKETS, BUCKET_SIZE]((b, p) => -1);
      nIdCount, mapInfo, mapAddr, vRandom, nTried, nNew, nLastGood := 0, map[], map[], [], 0, 0, 1;
      new;
      Ops.EmptyInv(h);
      assert NewTable() == map[] && TriedTable() == map[];
    }

    method GetNew(s: Slot) returns (id: int)
      requires Shaped() && s.bucket < NEW_BUCKETS && s.pos < BUCKET_SIZE
      ensures if s in NewTable() then id == NewTable()[s] != -1 else id == -1
    {
      assert s in AllSlots(NEW_BUCKETS);
      id := vvNew[s.bucket, s.pos];
    }

    method GetTried(s: Slot) returns (id: int)
      requires Shaped() && s.bucket < TRIED_BUCKETS && s.pos < BUCKET_SIZE
      ensures if s in TriedTable() then id == TriedTable()[s] != -1 else id == -1
    {
      assert s in AllSlots(TRIED_BUCKETS);
      id := vvTried[s.bucket, s.pos];
    }

    /** Writes one slot of the new table; -1 frees it. */
    method PutNew(s: Slot, id: int)
      requires Shaped() && s.bucket < NEW_BUCKETS && s.pos < BUCKET_SIZE
      modifies vvNew
      ensures NewTable() == if id == -1 then old(NewTable()) - {s} else old(NewTable())[s := id]
    {
      assert s in AllSlots(NEW_BUCKETS);
      vvNew[s.bucket, s.pos] := id;
    }

    method PutTried(s: Slot, id: int)
      requires Shaped() && s.bucket < TRIED_BUCKETS && s.pos < BUCKET_SIZE
      modifies vvTried
      ensures TriedTable() == if id == -1 then old(TriedTable()) - {s} else old(TriedTable())[s := id]
    {
      assert s in AllSlots(TRIED_BUCKETS);
      vvTried[s.bucket, s.pos] := id;
    }

    method SwapRandom(p1: int, p2: int)
      requires Shaped() && Index(Snapshot()) && 0 <= p1 < |vRandom| && 0 <= p2 < |vRandom|
      modifies this
      ensures Snapshot() == AddrMan.SwapRandom(old(Snapshot()), p1, p2)
    {
      if p1 == p2 { return; }
      var id1, id2 := vRandom[p1], vRandom[p2];
      assert id1 in mapInfo;
      assert id2 in mapInfo;
      mapInfo := mapInfo[id1 := mapInfo[id1].(randomPos := p2)];
      mapInfo := mapInfo[id2 := mapInfo[id2].(randomPos := p1)];
      vRandom := vRandom[p1 := id2];
      vRandom := vRandom[p2 := id1];
    }

    method Delete(id: int)
      requires Shaped() && Index(Snapshot())
      requires id in mapInfo && !mapInfo[id].inTried && mapInfo[id].refs == 0
      modifies this
      ensures Snapshot() == AddrMan.Delete(old(Snapshot()), id)
    {
      var info := mapInfo[id];
      SwapRandom(info.randomPos, |vRandom| - 1);
      vRandom := vRandom[..|vRandom| - 1];
      mapAddr := mapAddr - {info.service.ip};
      mapInfo := mapInfo - {id};
      nNew := nNew - 1;
    }

    method ClearNew(s: Slot)
      requires Shaped() && s.bucket < NEW_BUCKETS && s.pos < BUCKET_SIZE
      requires Index(Snapshot()) && Held(Snapshot(), s)
      modifies this, vvNew
      ensures Snapshot() == AddrMan.ClearNew(old(Snapshot()), s)
    {
      hide NewTable, TriedTable, Listed, Addressed, AddrMan.Delete;
      var id := GetNew(s);
      if id != -1 {
        DropRefIndex(Snapshot(), s);
        mapInfo := mapInfo[id := mapInfo[id].(refs := mapInfo[id].refs - 1)];
        PutNew(s, -1);
        assert Snapshot() == DropRef(old(Snapshot()), s);
        if mapInfo[id].refs == 0 {
          Delete(id);
        }
      }
    }

    /** Takes an entry out of one new bucket if it is there. */
    method UnlinkIn(id: int, bucket: nat)
      requires Shaped() && id in mapInfo && id != -1 && bucket < NEW_BUCKETS
      modifies this, vvNew
      ensures Snapshot() == UnlinkBucket(h, old(Snapshot()), id, bucket)
    {
      hide NewTable, TriedTable;
      var s := NewSlotIn(h, mapInfo[id].service, bucket);
      var holder := GetNew(s);
      if holder == id {
        PutNew(s, -1);
        mapInfo := mapInfo[id := mapInfo[id].(refs := mapInfo[id].refs - 1)];
      }
    }

    /** Takes an entry out of all new buckets. */
    method Unlink(id: int)
      requires Shaped() && id in mapInfo && id != -1
      modifies this, vvNew
      ensures Snapshot() == AddrMan.Unlink(h, old(Snapshot()), id)
    {
      ghost var st := Snapshot();
      assert forall s :: s in NewTable() ==> s.bucket < NEW_BUCKETS;
      hide NewTable, TriedTable, UnlinkBucket, UnlinkUpTo, AddrMan.Unlink;
      UnlinkStart(h, st, id);
      for bucket := 0 to NEW_BUCKETS
        invariant id in mapInfo && Snapshot() == UnlinkUpTo(h, st, id, bucket)
      {
        UnlinkMore(h, st, id, bucket);
        UnlinkIn(id, bucket);
      }
      UnlinkDone(h, st, id);
      nNew := nNew - 1;
    }

    method MakeTried(id: int)
      requires Shaped() && Whole(h, Snapshot()) && id in mapInfo && !mapInfo[id].inTried
      modifies this, vvNew, vvTried
      ensures Snapshot() == AddrMan.MakeTried(h, old(Snapshot()), id)
    {
      assert id >= 0;
      hide NewTable, TriedTable, Mid, AddrMan.Unlink, EnterTriedFor;
      UnlinkKeeps(h, Snapshot(), id);
      Unlink(id);
      assert mapInfo[id].refs == 0;
      TakeSlot(id);
    }

    /** Puts an unlinked entry into its tried slot, evicting the holder. */
    method TakeSlot(id: int)
      requires Shaped() && Mid(h, Snapshot(), {id}, {id}) && id in mapInfo && id != -1
      modifies this, vvNew, vvTried
      ensures Snapshot() == EnterTriedFor(h, old(Snapshot()), id)
    {
      ghost var w := Snapshot();
      hide NewTable, TriedTable, Mid, AddrMan.Evict;
      var s := TriedSlot(h, mapInfo[id].service);
      var holder := GetTried(s);
      TriedHolds(h, w, {id}, {id}, s);
      if holder != -1 {
        EvictKeeps(h, w, s, id);
        Evict(s, id);
      }
      assert s !in TriedTable();
      FillSlot(s, id);
    }

    /** Puts an entry into a free tried slot. */
    method FillSlot(s: Slot, id: int)
      requires Shaped() && s.bucket < TRIED_BUCKETS && s.pos < BUCKET_SIZE && id in mapInfo && id != -1
      modifies this, vvNew, vvTried
      ensures Shaped() && Snapshot() == EnterTried(old(Snapshot()), s, id)
    {
      hide NewTable, TriedTable;
      PutTried(s, id);
      nTried := nTried + 1;
      mapInfo := mapInfo[id := mapInfo[id].(inTried := true)];
    }

    /** Moves the holder of a tried slot back to the new table. */
    method Evict(s: Slot, ghost id: int)
      requires Shaped() && s.bucket < TRIED_BUCKETS && s.pos < BUCKET_SIZE
      requires Mid(h, Snapshot(), {id}, {id}) && s in TriedTable() && TriedTable()[s] in mapInfo
      modifies this, vvNew, vvTried
      ensures Snapshot() == AddrMan.Evict(h, old(Snapshot()), s, id)
    {
      ghost var st := Snapshot();
      hide NewTable, TriedTable, Mid, MakeRoom;
      var evicted := GetTried(s);
      MakeRoomKeeps(h, st, s, id);
      var place := EvictRoom(s, evicted, id);
      assert place !in NewTable();
      Home(place, evicted);
    }

    /** Gives an evicted entry its one reference in the new table. */
    method Home(place: Slot, evicted: int)
      requires Shaped() && place.bucket < NEW_BUCKETS && place.pos < BUCKET_SIZE && evicted in mapInfo && evicted != -1
      modifies this, vvNew
      ensures Shaped() && TriedTable() == old(TriedTable())
      ensures Snapshot() == old(Snapshot()).(info := old(mapInfo)[evicted := old(mapInfo)[evicted].(refs := 1)],
        newTable := old(NewTable())[place := evicted], nNew := old(nNew) + 1)
    {
      hide NewTable, TriedTable;
      mapInfo := mapInfo[evicted := mapInfo[evicted].(refs := 1)];
      PutNew(place, evicted);
      nNew := nNew + 1;
    }

    method EvictRoom(s: Slot, evicted: int, ghost id: int) returns (place: Slot)
      requires Shaped() && s.bucket < TRIED_BUCKETS && s.pos < BUCKET_SIZE
      requires Mid(h, Snapshot(), {id}, {id}) && s in TriedTable() && TriedTable()[s] == evicted && evicted in mapInfo
      modifies this, vvNew, vvTried
      ensures Snapshot() == MakeRoom(h, old(Snapshot()), s, id) && place == HomeOf(h, old(Snapshot()), s)
    {
      ghost var st := Snapshot();
      hide NewTable, TriedTable, Mid, AddrMan.ClearNew, Listed, Addressed;
      var infoOld := mapInfo[evicted];
      LeaveTriedKeeps(h, st, s, {id}, {id});
      mapInfo := mapInfo[evicted := infoOld.(inTried := false)];
      PutTried(s, -1);
      nTried := nTried - 1;
      assert Snapshot() == LeaveTried(st, s);
      place := NewSlot(h, infoOld.service, infoOld.source);
      AllHeld(h, Snapshot(), place, {id} + {evicted}, {id} + {evicted});
      ClearNew(place);
    }

    /** Searches the new buckets for an entry, from a random bucket on. */
    method FindBucket(id: int, rnd: nat) returns (found: int)
      requires Shaped() && id in mapInfo && id != -1
      ensures found != -1 <==> Ops.FindsBucket(h, Snapshot(), id)
    {
      ghost var st := Snapshot();
      hide NewTable, TriedTable;
      for n := 0 to NEW_BUCKETS
        invariant forall m: nat :: m < n ==> !HoldsAt(h, st, id, Turn(m, rnd))
      {
        var nB := Turn(n, rnd);
        var holder := GetNew(NewSlotIn(h, mapInfo[id].service, nB));
        if holder == id {
          assert Linked(h, st, NewSlotIn(h, st.info[id].service, nB), id);
          return nB;
        }
      }
      Wrapped(h, st, id, rnd);
      return -1;
    }

    /** Looks an entry up by address and port. */
    method Find(s: Service) returns (found: bool, id: int)
      requires Shaped() && Index(Snapshot())
      ensures found == Ops.Matches(Snapshot(), s)
      ensures found ==> id in mapInfo && id == mapAddr[s.ip]
    {
      if s.ip !in mapAddr { return false, -1; }
      id := mapAddr[s.ip];
      found := mapInfo[id].service == s;
    }

    method Good(s: Service, time: int, rnd: nat)
      requires Shaped() && Whole(h, Snapshot())
      modifies this, vvNew, vvTried
      ensures Snapshot() == Ops.Good(h, old(Snapshot()), s, time)
    {
      ghost var st := Snapshot();
      hide NewTable, TriedTable, TriedOk, NewOk, RefsOk, Counted, Ops.Promote;
      nLastGood := time;
      assert Index(Snapshot());
      var found, id := Find(s);
      assert Ops.Matches(Snapshot(), s) == Ops.Matches(st, s);
      if !found { return; }
      assert id >= 0;
      Succeeded(id, time, st);
      hide Listed, Addressed, Mid, Ops.Set, Ops.Promote;
      Promote(id, rnd);
    }

    /** Notes a success in the entry's statistics. */
    method Succeeded(id: int, time: int, ghost st: State)
      requires Shaped() && Whole(h, st) && id in mapInfo && Snapshot() == st.(lastGood := time)
      modifies this
      ensures Shaped() && Whole(h, Snapshot()) && id in mapInfo
      ensures Snapshot() == Ops.Set(st.(lastGood := time), id, st.info[id].(lastSuccess := time, lastTry := time, attempts := 0))
    {
      hide NewTable, TriedTable, TriedOk, NewOk, RefsOk, Counted, Listed, Addressed;
      var info := mapInfo[id].(lastSuccess := time, lastTry := time, attempts := 0);
      Ops.RestatKeeps(h, st, id, info, {}, {});
      mapInfo := mapInfo[id := info];
      assert Snapshot() == Ops.Set(st, id, info).(lastGood := time) == Ops.Set(st.(lastGood := time), id, info);
    }

    /** Moves an entry to the tried table unless it is there or in no new bucket. */
    method Promote(id: int, rnd: nat)
      requires Shaped() && Whole(h, Snapshot()) && id in mapInfo && id != -1
      modifies this, vvNew, vvTried
      ensures Snapshot() == Ops.Promote(h, old(Snapshot()), id)
    {
      if mapInfo[id].inTried { return; }
      hide NewTable, TriedTable, Mid, AddrMan.MakeTried, Ops.FindsBucket;
      var nUBucket := FindBucket(id, rnd);
      if nUBucket == -1 { return; }
      MakeTried(id);
    }

    method Attempt(s: Service, countFailure: bool, time: int)
      requires Shaped() && Index(Snapshot())
      modifies this
      ensures Snapshot() == Ops.Attempt(old(Snapshot()), s, countFailure, time)
    {
      hide NewTable, TriedTable, Listed, Addressed;
      var found, id := Find(s);
      if !found { return; }
      var info := mapInfo[id].(lastTry := time);
      if countFailure && info.lastCountAttempt < nLastGood {
        info := info.(lastCountAttempt := time, attempts := info.attempts + 1);
      }
      mapInfo := mapInfo[id := info];
    }

    method Connected(s: Service, time: int)
      requires Shaped() && Index(Snapshot())
      modifies this
      ensures Snapshot() == Ops.Connected(old(Snapshot()), s, time)
    {
      hide NewTable, TriedTable, Listed, Addressed;
      var found, id := Find(s);
      if !found { return; }
      var info := mapInfo[id];
      if time - info.time > 20 * 60 { info := info.(time := Ops.U32(time)); }
      mapInfo := mapInfo[id := info];
    }

    method SetServices(s: Service, services: set<nat>)
      requires Shaped() && Index(Snapshot())
      modifies this
      ensures Snapshot() == Ops.SetServices(old(Snapshot()), s, services)
    {
      hide NewTable, TriedTable, Listed, Addressed;
      var found, id := Find(s);
      if !found { return; }
      mapInfo := mapInfo[id := mapInfo[id].(services := services)];
    }

    method GetAddr(now: int, draw: nat -> nat) returns (vAddr: seq<Info>)
      requires Shaped() && Index(Snapshot())
      modifies this
      ensures (Snapshot(), vAddr) == Ops.GetAddr(old(Snapshot()), now, draw)
    {
      ghost var st := Snapshot();
      hide NewTable, TriedTable, AddrMan.SwapRandom, Ops.Draw, IsTerrible;
      vAddr := [];
      var n := 0;
      while n < |vRandom| && |vAddr| < Min(Ops.GETADDR_MAX_PCT * |vRandom| / 100, Ops.GETADDR_MAX)
        invariant n <= |vRandom| && Index(Snapshot())
        invariant Ops.GetAddrFrom(Snapshot(), now, draw, n, vAddr) == Ops.GetAddrFrom(st, now, draw, 0, [])
      {
        var p := Ops.Draw(draw, n, |vRandom|);
        Ops.SwapFacts(Snapshot(), n, p);
        SwapRandom(n, p);
        assert vRandom[n] in mapInfo;
        var ai := mapInfo[vRandom[n]];
        if !IsTerrible(ai, now) { vAddr := vAddr + [ai]; }
        n := n + 1;
      }
    }

    /** Gives an entry a reference in the bucket its source selects, or deletes it if it has
        none and gets none. */
    method Insert(id: int, source: NetAddr, now: int, ghost loose: set<int>)
      requires Shaped() && Mid(h, Snapshot(), loose, {}) && id in mapInfo
      requires !mapInfo[id].inTried && id != -1
      modifies this, vvNew
      ensures Snapshot() == Ops.Insert(h, old(Snapshot()), id, source, now)
    {
      ghost var st := Snapshot();
      var s := NewSlot(h, mapInfo[id].service, source);
      AllHeld(h, st, s, loose, {});
      assert NewOk(h, st.info, st.newTable);
      hide NewTable, TriedTable, Mid, NewOk, Listed, Addressed, AddrMan.Delete, AddrMan.ClearNew, IsTerrible;
      var holder := GetNew(s);
      if holder == id { return; }
      var fInsert := holder == -1;
      if !fInsert {
        var infoExisting := mapInfo[holder];
        if IsTerrible(infoExisting, now) || (infoExisting.refs > 1 && mapInfo[id].refs == 0) {
          fInsert := true;
        }
      }
      if fInsert {
        Ops.ClearedStays(st, s, id);
        ClearNew(s);
        TakeRef(s, id);
      } else if mapInfo[id].refs == 0 {
        Delete(id);
      }
    }

    /** One more reference for an entry, in a free slot. */
    method TakeRef(s: Slot, id: int)
      requires Shaped() && s.bucket < NEW_BUCKETS && s.pos < BUCKET_SIZE && id in mapInfo && id != -1
      modifies this, vvNew
      ensures Shaped() && Snapshot() == AddRef(old(Snapshot()), s, id)
    {
      hide NewTable, TriedTable;
      mapInfo := mapInfo[id := mapInfo[id].(refs := mapInfo[id].refs + 1)];
      PutNew(s, id);
    }

    /** The stochastic test: each reference held makes one more twice as hard to get. */
    method Draw(refs: int, draw: nat) returns (lucky: bool)
      requires refs >= 0
      ensures lucky == (draw % Two(refs) == 0)
    {
      var nFactor := 1;
      for n := 0 to refs
        invariant nFactor == Two(n)
      {
        nFactor := nFactor * 2;
      }
      lucky := !(nFactor > 1 && draw % nFactor != 0);
    }

    method AddKnown(id: int, a: Address, source: NetAddr, penalty: int, now: int, draw: nat)
      requires Shaped() && Whole(h, Snapshot()) && id in mapInfo && a.routable
      requires a.service.ip in mapAddr && mapAddr[a.service.ip] == id
      modifies this, vvNew
      ensures Snapshot() == Ops.AddKnown(h, old(Snapshot()), id, a, source, penalty, now, Lucky(old(Snapshot()), a, draw))
    {
      ghost var st := Snapshot();
      assert id >= 0 && mapInfo[id].refs >= 0;
      var i := Ops.Refresh(mapInfo[id], a, penalty, now);
      Ops.RestatKeeps(h, st, id, i, {}, {});
      LuckyIff(st, a, draw);
      hide NewTable, TriedTable, Mid, Whole, Lucky, Ops.Refresh, Ops.Insert, Two;
      mapInfo := mapInfo[id := i];
      assert Snapshot() == Ops.Set(st, id, i);
      var wants := WantsMore(i, a, draw);
      if wants { Insert(id, source, now, {}); }
    }

    /** Whether an entry that is known takes one more reference: if what is heard is news of it, it is not
        tried, has room for one and the draw admits it. */
    method WantsMore(i: Info, a: Address, draw: nat) returns (wants: bool)
      requires i.refs >= 0
      ensures wants <==> a.time != 0 && (i.time == 0 || a.time > i.time) && !i.inTried && i.refs != MAX_REFERENCES && draw % Two(i.refs) == 0
    {
      if a.time == 0 || (i.time != 0 && a.time <= i.time) { return false; }
      if i.inTried { return false; }
      if i.refs == MAX_REFERENCES { return false; }
      var lucky := Draw(i.refs, draw);
      return i.refs == 0 || lucky;
    }

    method Create(a: Address, source: NetAddr) returns (id: int)
      requires Shaped()
      modifies this
      ensures id == old(nIdCount) && Snapshot() == AddrMan.Create(old(Snapshot()), a, source)
    {
      id := nIdCount;
      nIdCount := nIdCount + 1;
      mapInfo := mapInfo[id := Info(a.service, source, a.services, a.time, 0, 0, 0, 0, 0, false, -1)];
      mapAddr := mapAddr[a.service.ip := id];
      mapInfo := mapInfo[id := mapInfo[id].(randomPos := |vRandom|)];
      vRandom := vRandom + [id];
    }

    method AddUnknown(a: Address, source: NetAddr, penalty: int, now: int)
      requires Shaped() && Whole(h, Snapshot()) && a.service.ip !in mapAddr
      modifies this, vvNew
      ensures Snapshot() == Ops.AddUnknown(h, old(Snapshot()), a, source, penalty, now)
    {
      ghost var st := Snapshot();
      assert 0 <= nIdCount;
      Ops.NewEntryKeeps(h, st, a, source, penalty);
      hide NewTable, TriedTable, Mid, Ops.Insert;
      var id := Create(a, source);
      mapInfo := mapInfo[id := mapInfo[id].(time := Ops.U32(Max(0, mapInfo[id].time - penalty)))];
      nNew := nNew + 1;
      assert Snapshot() == Ops.NewEntry(st, a, source, penalty);
      hide Ops.NewEntry, Ops.U32, Max;
      assert !mapInfo[id].inTried by { Ops.NewEntryShape(st, a, source, penalty); }
      Insert(id, source, now, {id});
    }

    method Add(a: Address, source: NetAddr, nTimePenalty: int, now: int, draw: nat) returns (fNew: bool)
      requires Shaped() && Whole(h, Snapshot())
      modifies this, vvNew
      ensures (Snapshot(), fNew) ==
              Ops.Add(h, old(Snapshot()), a, source, nTimePenalty, now, Lucky(old(Snapshot()), a, draw))
    {
      if !a.routable { return false; }
      hide NewTable, TriedTable, Ops.AddKnown, Ops.AddUnknown, Lucky;
      var penalty := if a.service.ip == source then 0 else nTimePenalty;
      if a.service.ip in mapAddr {
        AddKnown(mapAddr[a.service.ip], a, source, penalty, now, draw);
        fNew := false;
      } else {
        AddUnknown(a, source, penalty, now);
        fNew := true;
      }
    }
  }

  /** A slot of the new table is free or held by a new entry that counts it. */
  ghost predicate Held(st: State, s: Slot) {
    s in st.newTable ==>
      && st.newTable[s] in st.info
      && st.info[st.newTable[s]].refs > 0 && !st.info[st.newTable[s]].inTried
  }

  lemma AllHeld(h: Hashes, st: State, s: Slot, loose: set<int>, uncounted: set<int>)
    requires Mid(h, st, loose, uncounted)
    ensures Index(st) && Held(st, s)
  {
    assert s in st.newTable ==> s in SlotsOf(st.newTable, st.newTable[s]);
  }

  lemma TriedHolds(h: Hashes, st: State, loose: set<int>, uncounted: set<int>, s: Slot)
    requires Mid(h, st, loose, uncounted)
    ensures s in st.triedTable ==> st.triedTable[s] in st.info
  {
  }

  // The loop of MakeTried over the new buckets.

  ghost function UnlinkBucket(h: Hashes, st: State, id: int, bucket: nat): State
    requires id in st.info
  {
    var s := NewSlotIn(h, st.info[id].service, bucket);
    if s in st.newTable && st.newTable[s] == id then DropRef(st, s) else st
  }

  ghost function Gone(h: Hashes, st: State, id: int, bucket: nat): set<Slot>
    requires id in st.info
  {
    set s | s in st.newTable && Linked(h, st, s, id) && s.bucket < bucket
  }

  /** The state when the loop has passed the buckets below a given one. */
  ghost function UnlinkUpTo(h: Hashes, st: State, id: int, bucket: nat): State
    requires id in st.info
  {
    var gone := Gone(h, st, id, bucket);
    st.(info := st.info[id := st.info[id].(refs := st.info[id].refs - |gone|)], newTable := st.newTable - gone)
  }

  lemma UnlinkStart(h: Hashes, st: State, id: int)
    requires id in st.info
    ensures UnlinkUpTo(h, st, id, 0) == st
  {
    assert Gone(h, st, id, 0) == {};
    assert st.newTable - {} == st.newTable;
    assert st.info[id := st.info[id].(refs := st.info[id].refs - 0)] == st.info;
  }

  lemma GoneStep(h: Hashes, st: State, id: int, bucket: nat)
    requires id in st.info
    ensures var s := NewSlotIn(h, st.info[id].service, bucket);
            && s !in Gone(h, st, id, bucket)
            && Gone(h, st, id, bucket + 1) ==
               Gone(h, st, id, bucket) + (if s in st.newTable && st.newTable[s] == id then {s} else {})
  {
  }

  lemma UnlinkMore(h: Hashes, st: State, id: int, bucket: nat)
    requires id in st.info
    ensures var w := UnlinkUpTo(h, st, id, bucket);
            id in w.info && UnlinkBucket(h, w, id, bucket) == UnlinkUpTo(h, st, id, bucket + 1)
    ensures id in UnlinkUpTo(h, st, id, bucket + 1).info
  {
    GoneStep(h, st, id, bucket);
    hide Gone, Linked;
    var w := UnlinkUpTo(h, st, id, bucket);
    var s := NewSlotIn(h, st.info[id].service, bucket);
    var gone := Gone(h, st, id, bucket);
    if s in st.newTable && st.newTable[s] == id {
      assert w.newTable - {s} == st.newTable - (gone + {s});
      SetTwice(st.info, id, w.info[id], w.info[id].(refs := w.info[id].refs - 1));
    } else {
      assert gone + {} == gone;
      assert !(s in w.newTable && w.newTable[s] == id);
    }
  }

  lemma SetTwice(m: map<int, Info>, id: int, i: Info, j: Info)
    ensures m[id := i][id := j] == m[id := j]
  {
  }

  lemma UnlinkDone(h: Hashes, st: State, id: int)
    requires id in st.info && forall s :: s in st.newTable ==> s.bucket < NEW_BUCKETS
    ensures var w := UnlinkUpTo(h, st, id, NEW_BUCKETS); AddrMan.Unlink(h, st, id) == w.(nNew := w.nNew - 1)
  {
    assert Gone(h, st, id, NEW_BUCKETS) == set s | s in st.newTable && Linked(h, st, s, id);
  }

  ghost predicate HoldsAt(h: Hashes, st: State, id: int, bucket: nat)
    requires id in st.info
  {
    var s := NewSlotIn(h, st.info[id].service, bucket);
    s in st.newTable && st.newTable[s] == id
  }

  function Turn(n: nat, rnd: nat): nat { (n + rnd) % NEW_BUCKETS }

  /** A full turn from any start passes every bucket. */
  lemma Wrapped(h: Hashes, st: State, id: int, rnd: nat)
    requires id in st.info
    requires forall m: nat :: m < NEW_BUCKETS ==> !HoldsAt(h, st, id, Turn(m, rnd))
    ensures !Ops.FindsBucket(h, st, id)
  {
    forall b: nat | b < NEW_BUCKETS
      ensures !HoldsAt(h, st, id, b)
    {
      var m := (b - rnd) % NEW_BUCKETS;
      assert Turn(m, rnd) == b;
    }
    if Ops.FindsBucket(h, st, id) {
      var b: nat :| b < NEW_BUCKETS && Linked(h, st, NewSlotIn(h, st.info[id].service, b), id);
      assert HoldsAt(h, st, id, b);
    }
  }

  /** The draw admits one more reference to a known address. */
  predicate Lucky(st: State, a: Address, draw: nat) {
    a.service.ip in st.addr && st.addr[a.service.ip] in st.info && st.info[st.addr[a.service.ip]].refs >= 0 ==>
      draw % Two(st.info[st.addr[a.service.ip]].refs) == 0
  }

  /** With n references one more is admitted by one of 2^n draws. */
  lemma LuckyIff(st: State, a: Address, draw: nat)
    requires a.service.ip in st.addr && st.addr[a.service.ip] in st.info && st.info[st.addr[a.service.ip]].refs >= 0
    ensures Lucky(st, a, draw) <==> draw % Two(st.info[st.addr[a.service.ip]].refs) == 0
  {
  }
}
