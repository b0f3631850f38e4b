/** The cache object: the operations in place, proved to compute the steps of its specification. */
module CuckooCache {

  import opened Basics
  import opened Cuckoo

  class Cache {
    const params: Params
    var table: seq<Elem>
    var collectionFlags: seq<bool>
    var epochFlags: seq<bool>
    var epochCounter: nat

    function Snapshot(): State
      reads this
    {
      State(table, collectionFlags, epochFlags, epochCounter)
    }

    ghost predicate Valid()
      reads this
    {
      Wf(params) && Shape(params, Snapshot())
    }

    constructor (params: Params)
      requires Wf(params)
      ensures Valid() && this.params == params && Snapshot() == New(params)
    {
      this.params := params;
      table := seq(params.size, _ => params.empty);
      collectionFlags := seq(params.size, _ => true);
      epochFlags := seq(params.size, _ => false);
      epochCounter := params.epochSize;
    }

    /** Ages every slot: current ones become old, old ones may be reused. */
    method Age()
      requires Valid()
      modifies this
      ensures Valid() && Snapshot() == Aged(params, old(Snapshot()))
    {
      for i := 0 to params.size
        invariant Valid() && table == old(table) && epochCounter == old(epochCounter)
        invariant forall j :: 0 <= j < i ==> !epochFlags[j] && collectionFlags[j] == (old(collectionFlags)[j] || !old(epochFlags)[j])
        invariant forall j :: i <= j < params.size ==> epochFlags[j] == old(epochFlags)[j] && collectionFlags[j] == old(collectionFlags)[j]
      {
        if epochFlags[i] {
          epochFlags := epochFlags[i := false];
        } else {
          collectionFlags := collectionFlags[i := true];
        }
      }
    }

    method CheckEpoch()
      requires Valid()
      modifies this
      ensures Valid() && Snapshot() == EpochCheck(params, old(Snapshot()))
    {
      if epochCounter != 0 {
        epochCounter := epochCounter - 1;
        return;
      }
      var unused := 0;
      for i := 0 to params.size
        invariant unused == Recent(Snapshot(), i)
      {
        if epochFlags[i] && !collectionFlags[i] { unused := unused + 1; }
      }
      if unused >= params.epochSize {
        Age();
        epochCounter := params.epochSize;
      } else {
        epochCounter := Max(1, Max(params.epochSize / 16, params.epochSize - unused));
      }
    }

    /** The first of the places that holds e, or -1. */
    method Find(e: Elem, locs: seq<nat>) returns (r: int)
      requires forall i :: 0 <= i < |locs| ==> locs[i] < |table|
      ensures r == FindIn(Snapshot(), locs, e)
    {
      for i := 0 to |locs|
        invariant FindIn(Snapshot(), locs, e) == FindIn(Snapshot(), locs[i..], e)
      {
        assert locs[i..][1..] == locs[i + 1..];
        if table[locs[i]] == e { return locs[i]; }
      }
      return -1;
    }

    /** The first of the places that may be reused, or -1. */
    method FindFree(locs: seq<nat>) returns (r: int)
      requires |collectionFlags| == |table| && forall i :: 0 <= i < |locs| ==> locs[i] < |table|
      ensures r == FreeIn(Snapshot(), locs)
    {
      for i := 0 to |locs|
        invariant FreeIn(Snapshot(), locs) == FreeIn(Snapshot(), locs[i..])
      {
        assert locs[i..][1..] == locs[i + 1..];
        if collectionFlags[locs[i]] { return locs[i]; }
      }
      return -1;
    }

    method Insert(element: Elem)
      requires Valid()
      modifies this
      ensures Valid() && Snapshot() == Cuckoo.Insert(params, old(Snapshot()), element)
    {
      CheckEpoch();
      var found := Find(element, params.locs(element));
      hide FindIn, EpochCheck, Place;
      if found != -1 {
        collectionFlags := collectionFlags[found := false];
        epochFlags := epochFlags[found := true];
      } else {
        Displace(element);
      }
    }

    /** Puts an element into a reusable place, pushing others on as far as needed and allowed. */
    method Displace(element: Elem)
      requires Valid()
      modifies this
      ensures Valid() && Snapshot() == Place(params, old(Snapshot()), element, -1, true, params.depthLimit)
    {
      var e, recent := element, true;
      var last: int := -1;
      var locs := params.locs(e);
      ghost var start := Snapshot();
      hide FreeIn, NextLoc;
      for depth := 0 to params.depthLimit
        invariant Valid() && locs == params.locs(e)
        invariant Place(params, start, element, -1, true, params.depthLimit)
          == Place(params, Snapshot(), e, last, recent, params.depthLimit - depth)
      {
        var free := FindFree(locs);
        ghost var now := Snapshot();
        PlaceStep(params, now, e, last, recent, params.depthLimit - depth);
        if free != -1 {
          table := table[free := e];
          collectionFlags := collectionFlags[free := false];
          epochFlags := epochFlags[free := recent];
          return;
        }
        last := NextLoc(locs, last);
        e, recent := Swap(last, e, recent);
        locs := params.locs(e);
      }
      PlaceNone(params, Snapshot(), e, last, recent);
    }

    /** The element in hand trades places with the one in a slot, and so do their epochs. */
    method Swap(l: nat, e: Elem, recent: bool) returns (pushed: Elem, epoch: bool)
      requires l < |table| && l < |epochFlags|
      modifies `table, `epochFlags
      ensures table == old(table)[l := e] && epochFlags == old(epochFlags)[l := recent]
      ensures pushed == old(table[l]) && epoch == old(epochFlags[l])
    {
      pushed, epoch := table[l], epochFlags[l];
      table := table[l := e];
      epochFlags := epochFlags[l := recent];
    }

    method Contains(e: Elem, erase: bool) returns (r: bool)
      requires Valid()
      modifies this
      ensures Valid() && (r <==> FindIn(old(Snapshot()), params.locs(e), e) != -1)
      ensures Snapshot() == Step(params, old(Snapshot()), LookUp(e, erase))
    {
      var k := Find(e, params.locs(e));
      if k != -1 && erase { collectionFlags := collectionFlags[k := true]; }
      return k != -1;
    }
  }

  /** One round of placing an element. */
  lemma PlaceStep(p: Params, s: State, e: Elem, last: int, recent: bool, depth: nat)
    requires Wf(p) && Shape(p, s) && depth > 0
    ensures var k, l := FreeIn(s, p.locs(e)), NextLoc(p.locs(e), last);
      && l < p.size
      && Place(p, s, e, last, recent, depth) ==
        if k != -1 then Put(s, k, e, recent)
        else Place(p, s.(table := s.table[l := e], epoch := s.epoch[l := recent]), s.table[l], l, s.epoch[l], depth - 1)
  {
  }

  lemma PlaceNone(p: Params, s: State, e: Elem, last: int, recent: bool)
    requires Wf(p) && Shape(p, s)
    ensures Place(p, s, e, last, recent, 0) == s
  {
  }
}
