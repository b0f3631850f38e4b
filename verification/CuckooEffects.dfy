/** What an insertion stores and what it loses, and when the cache ages.

    An insertion follows a chain of displacements: each element without a reusable place takes the place
    of another, until one of them has a reusable place or the depth is used up. */
module CuckooEffects {

  import opened Basics
  import opened Cuckoo

  // ---------------------------------------------------------------- the chain

  /** Some place of the element may be reused. */
  ghost predicate HasRoom(p: Params, s: State, e: Elem)
    requires Wf(p) && Shape(p, s)
  {
    exists j :: 0 <= j < 8 && s.collect[p.locs(e)[j]]
  }

  /** The first of its places that may be. */
  ghost predicate FirstRoom(p: Params, s: State, e: Elem, k: nat)
    requires Wf(p) && Shape(p, s)
  {
    exists j :: 0 <= j < 8 && p.locs(e)[j] == k && s.collect[k] && forall i :: 0 <= i < j ==> !s.collect[p.locs(e)[i]]
  }

  ghost predicate FirstAt(locs: seq<nat>, loc: int, j: int) {
    0 <= j < |locs| && locs[j] == loc && forall i :: 0 <= i < j ==> locs[i] != loc
  }

  /** The next place, or the first after the last. */
  function PlaceAfter(locs: seq<nat>, j: int): nat
    requires |locs| == 8
  {
    locs[(j + 1) % 8]
  }

  /** The place of e an element is pushed out of: the one after where the one in hand came from, or the
      second of all. */
  ghost predicate PushedFrom(p: Params, e: Elem, last: int, l: nat)
    requires Wf(p)
  {
    var locs := p.locs(e);
    if last in locs then exists j :: FirstAt(locs, last, j) && l == PlaceAfter(locs, j) else l == locs[1]
  }

  /** A point of the chain: the table, the element in hand, where it came from, and whether it is of the
      current epoch. */
  datatype Hand = Hand(s: State, e: Elem, last: int, recent: bool)

  /** The element in hand and the one in a place of its own change places. */
  ghost predicate Displaces(p: Params, x: Hand, y: Hand)
    requires Wf(p)
  {
    && Shape(p, x.s) && !HasRoom(p, x.s, x.e) && 0 <= y.last < p.size && PushedFrom(p, x.e, x.last, y.last)
    && y.e == x.s.table[y.last] && y.recent == x.s.epoch[y.last]
    && y.s == x.s.(table := x.s.table[y.last := x.e], epoch := x.s.epoch[y.last := x.recent])
  }

  /** A chain from an insertion on. */
  ghost predicate Chain(p: Params, t: State, e: Elem, hs: seq<Hand>)
    requires Wf(p)
  {
    && |hs| > 0 && hs[0] == Hand(t, e, -1, true)
    && forall i :: 0 <= i < |hs| - 1 ==> Displaces(p, hs[i], hs[i + 1])
  }

  lemma {:induction false} IndexIs(locs: seq<nat>, loc: int)
    ensures if loc in locs then IndexOf(locs, loc) < |locs| && locs[IndexOf(locs, loc)] == loc && forall i :: 0 <= i < IndexOf(locs, loc) ==> locs[i] != loc
            else IndexOf(locs, loc) == |locs|
  {
    if locs != [] && locs[0] != loc {
      IndexIs(locs[1..], loc);
      assert locs == [locs[0]] + locs[1..];
    }
  }

  lemma NextIs(p: Params, e: Elem, last: int, l: nat)
    requires Wf(p)
    ensures PushedFrom(p, e, last, l) <==> l == NextLoc(p.locs(e), last)
  {
    IndexIs(p.locs(e), last);
    hide IndexOf;
    if last in p.locs(e) { assert FirstAt(p.locs(e), last, IndexOf(p.locs(e), last)); }
  }

  /** The element just put down is never the one taken up next, if and only if no place of the element in
      hand is followed, where it first occurs, by itself. */
  lemma NotBackIff(p: Params, e: Elem)
    requires Wf(p)
    ensures (forall last, l :: PushedFrom(p, e, last, l) ==> l != last) <==>
      forall j, k :: FirstAt(p.locs(e), k, j) ==> PlaceAfter(p.locs(e), j) != k
  {
    if j, k :| FirstAt(p.locs(e), k, j) && PlaceAfter(p.locs(e), j) == k { assert PushedFrom(p, e, k, k); }
  }

  lemma {:induction false} FreeIs(s: State, locs: seq<nat>)
    requires |s.collect| == |s.table| && forall i :: 0 <= i < |locs| ==> locs[i] < |s.table|
    ensures var r := FreeIn(s, locs);
      if r == -1 then forall j :: 0 <= j < |locs| ==> !s.collect[locs[j]]
      else exists j :: 0 <= j < |locs| && locs[j] == r && s.collect[r] && forall i :: 0 <= i < j ==> !s.collect[locs[i]]
  {
    if locs != [] && !s.collect[locs[0]] {
      FreeIs(s, locs[1..]);
      var r := FreeIn(s, locs[1..]);
      if r != -1 {
        var j :| 0 <= j < |locs[1..]| && locs[1..][j] == r && s.collect[r] && forall i :: 0 <= i < j ==> !s.collect[locs[1..][i]];
        assert locs[j + 1] == r;
        assert forall i :: 0 < i < j + 1 ==> locs[i] == locs[1..][i - 1];
      }
    }
  }

  lemma FreeMeans(p: Params, s: State, e: Elem)
    requires Wf(p) && Shape(p, s)
    ensures var r := FreeIn(s, p.locs(e)); (r != -1 <==> HasRoom(p, s, e)) && (r != -1 ==> r >= 0 && FirstRoom(p, s, e, r))
  {
    FreeIs(s, p.locs(e));
    hide FreeIn;
  }

  /** Placing goes along the chain. */
  lemma {:induction false} PlaceAlong(p: Params, t: State, e: Elem, hs: seq<Hand>, depth: nat)
    requires Wf(p) && Shape(p, t) && Chain(p, t, e, hs) && |hs| - 1 <= depth
    ensures var h := hs[|hs| - 1];
      Shape(p, h.s) && Place(p, t, e, -1, true, depth) == Place(p, h.s, h.e, h.last, h.recent, depth - (|hs| - 1))
  {
    if |hs| > 1 {
      var before := hs[..|hs| - 1];
      var x, y := before[|before| - 1], hs[|hs| - 1];
      assert Chain(p, t, e, before);
      PlaceAlong(p, t, e, before, depth);
      assert Displaces(p, hs[|hs| - 2], hs[|hs| - 2 + 1]);
      FreeMeans(p, x.s, x.e);
      NextIs(p, x.e, x.last, y.last);
      hide Chain, HasRoom, PushedFrom, FreeIn, NextLoc;
    }
  }

  // ---------------------------------------------------------------- what a chain keeps

  lemma {:induction false} ChainKeeps(p: Params, t: State, e: Elem, hs: seq<Hand>)
    requires Wf(p) && Holding(p, t, e) && Chain(p, t, e, hs)
    ensures var h := hs[|hs| - 1]; Holding(p, h.s, h.e) && Kept(h.s) + {h.e} == Kept(t) + {e}
  {
    if |hs| > 1 {
      var before := hs[..|hs| - 1];
      var x, y := before[|before| - 1], hs[|hs| - 1];
      assert Chain(p, t, e, before);
      ChainKeeps(p, t, e, before);
      assert Displaces(p, hs[|hs| - 2], hs[|hs| - 2 + 1]);
      NextIs(p, x.e, x.last, y.last);
      assert y.last in p.locs(x.e);
      hide Chain, Kept, Stored, PushedFrom, Holding, NextLoc;
      SwapKeeps(p, x.s, y.last, x.e, x.recent);
    }
  }

  lemma NotStored(p: Params, t: State, e: Elem)
    requires Wf(p) && Inv(p, t) && e != p.empty && e !in Stored(p, t)
    ensures Holding(p, t, e) && FindIn(t, p.locs(e), e) == -1
  {
    FindsStored(p, t, e);
    assert forall i :: 0 <= i < p.size && Used(p, t, i) ==> t.table[i] in Stored(p, t);
  }

  /** If the chain comes to an element with a reusable place before the depth is used up, that element takes
      the first such place, and the insertion loses nothing that was kept. */
  lemma InsertStores(p: Params, s: State, e: Elem, hs: seq<Hand>) returns (k: nat)
    requires Wf(p) && Inv(p, s) && e != p.empty && e !in Stored(p, s) && |hs| <= p.depthLimit
    requires Chain(p, EpochCheck(p, s), e, hs) && Shape(p, hs[|hs| - 1].s) && HasRoom(p, hs[|hs| - 1].s, hs[|hs| - 1].e)
    ensures Kept(Insert(p, s, e)) == Kept(EpochCheck(p, s)) + {e}
    ensures FirstRoom(p, hs[|hs| - 1].s, hs[|hs| - 1].e, k) && k < p.size
    ensures Insert(p, s, e).table == hs[|hs| - 1].s.table[k := hs[|hs| - 1].e]
  {
    EpochKeeps(p, s);
    var t, h := EpochCheck(p, s), hs[|hs| - 1];
    assert Stored(p, t) == Stored(p, s);
    NotStored(p, t, e);
    ChainKeeps(p, t, e, hs);
    PlaceAlong(p, t, e, hs, p.depthLimit);
    FreeMeans(p, h.s, h.e);
    k := FreeIn(h.s, p.locs(h.e));
    assert k in p.locs(h.e);
    hide Chain, HasRoom, FirstRoom, Stored, EpochCheck, FreeIn, FindIn, Kept;
    PutKeeps(p, h.s, k, h.e, h.recent);
    assert Insert(p, s, e) == Put(h.s, k, h.e, h.recent);
  }

  /** If the chain is as long as the depth, the element in hand at its end is lost and no other. */
  lemma InsertLoses(p: Params, s: State, e: Elem, hs: seq<Hand>)
    requires Wf(p) && Inv(p, s) && e != p.empty && e !in Stored(p, s) && |hs| == p.depthLimit + 1 && Chain(p, EpochCheck(p, s), e, hs)
    ensures var lost := hs[p.depthLimit].e;
      && Insert(p, s, e) == hs[p.depthLimit].s
      && Kept(Insert(p, s, e)) == Kept(EpochCheck(p, s)) + {e} - {lost} && lost !in Stored(p, Insert(p, s, e))
  {
    EpochKeeps(p, s);
    var t, h := EpochCheck(p, s), hs[|hs| - 1];
    assert Stored(p, t) == Stored(p, s);
    NotStored(p, t, e);
    ChainKeeps(p, t, e, hs);
    PlaceAlong(p, t, e, hs, p.depthLimit);
    assert h.e !in Stored(p, h.s) && h.e !in Kept(h.s);
    hide Chain, Stored, EpochCheck, FindIn, Kept, Holding;
    assert Kept(h.s) == Kept(t) + {e} - {h.e};
  }

  /** An insertion with a reusable place among its own, or stored already, is kept with all that was, and the
      next lookup finds it. */
  lemma InsertFound(p: Params, s: State, e: Elem)
    requires Wf(p) && Inv(p, s) && e != p.empty && p.depthLimit > 0
    requires e in Stored(p, s) || HasRoom(p, EpochCheck(p, s), e)
    ensures Kept(Insert(p, s, e)) == Kept(EpochCheck(p, s)) + {e}
    ensures FindIn(Insert(p, s, e), p.locs(e), e) != -1
  {
    EpochKeeps(p, s);
    var t := EpochCheck(p, s);
    assert Stored(p, t) == Stored(p, s);
    var lost := InsertKeeps(p, s, e);
    FindsStored(p, t, e);
    if e in Stored(p, s) {
      RefreshKeeps(p, t, FindIn(t, p.locs(e), e));
    } else {
      var k := InsertStores(p, s, e, [Hand(t, e, -1, true)]);
    }
    KeptStored(p, Insert(p, s, e), e);
    FindsStored(p, Insert(p, s, e), e);
  }

  lemma KeptStored(p: Params, s: State, e: Elem)
    requires Inv(p, s) && e in Kept(s)
    ensures e in Stored(p, s)
  {
    var i :| 0 <= i < |s.table| && !s.collect[i] && s.table[i] == e;
    assert Used(p, s, i);
  }

  /** Every insertion of an element that is not stored has such a chain. */
  lemma {:induction false} ChainExists(p: Params, t: State, e: Elem, n: nat) returns (hs: seq<Hand>)
    requires Wf(p) && Shape(p, t)
    ensures Chain(p, t, e, hs) && |hs| <= n + 1 && Shape(p, hs[|hs| - 1].s)
    ensures |hs| == n + 1 || HasRoom(p, hs[|hs| - 1].s, hs[|hs| - 1].e)
  {
    hs := [Hand(t, e, -1, true)];
    if n > 0 {
      hs := ChainExists(p, t, e, n - 1);
      var x := hs[|hs| - 1];
      if |hs| == n && !HasRoom(p, x.s, x.e) {
        var l := NextLoc(p.locs(x.e), x.last);
        NextIs(p, x.e, x.last, l);
        assert l in p.locs(x.e);
        var y := Hand(x.s.(table := x.s.table[l := x.e], epoch := x.s.epoch[l := x.recent]), x.s.table[l], l, x.s.epoch[l]);
        hide HasRoom, PushedFrom, NextLoc;
        assert Displaces(p, x, y);
        hs := hs + [y];
      }
    }
  }

  // ---------------------------------------------------------------- ageing

  /** Slots of the current epoch that must be kept. */
  function RecentSlots(s: State): set<int>
    requires |s.epoch| == |s.collect|
  {
    set i | 0 <= i < |s.epoch| && s.epoch[i] && !s.collect[i]
  }

  lemma {:induction false} RecentCounts(s: State, n: nat)
    requires n <= |s.epoch| == |s.collect|
    ensures Recent(s, n) == |set i | 0 <= i < n && s.epoch[i] && !s.collect[i]|
  {
    var now := set i | 0 <= i < n && s.epoch[i] && !s.collect[i];
    if n == 0 {
      assert now == {};
    } else {
      RecentCounts(s, n - 1);
      var before := set i | 0 <= i < n - 1 && s.epoch[i] && !s.collect[i];
      assert now == if s.epoch[n - 1] && !s.collect[n - 1] then before + {n - 1} else before;
    }
  }

  /** When the countdown is over and enough slots of the current epoch must be kept, the slots of older epochs
      may be reused and those of the current one become old; otherwise only the countdown changes. */
  lemma EpochAges(p: Params, s: State)
    requires Shape(p, s)
    ensures var r, recent := EpochCheck(p, s), |RecentSlots(s)|;
      && r.table == s.table
      && (s.counter == 0 && recent >= p.epochSize ==>
        r.counter == p.epochSize && forall i :: 0 <= i < p.size ==> !r.epoch[i] && (r.collect[i] <==> s.collect[i] || !s.epoch[i]))
      && (s.counter > 0 ==> r == s.(counter := s.counter - 1))
      && (s.counter == 0 && recent < p.epochSize ==> r == s.(counter := Max(1, Max(p.epochSize / 16, p.epochSize - recent))))
  {
    RecentCounts(s, p.size);
    assert RecentSlots(s) == set i | 0 <= i < p.size && s.epoch[i] && !s.collect[i];
  }

  function One(b: bool): nat { if b then 1 else 0 }

  lemma SlotsWith(a: set<int>, b: set<int>, l: int)
    requires a - {l} == b - {l}
    ensures |b| + One(l in a) == |a| + One(l in b)
  {
    assert |a - {l}| == |a| - One(l in a) && |b - {l}| == |b| - One(l in b);
  }

  /** Placing an element makes at most one slot more one of the current epoch. */
  lemma {:induction false} PlaceRecent(p: Params, s: State, e: Elem, last: int, recent: bool, depth: nat)
    requires Wf(p) && Shape(p, s)
    ensures |RecentSlots(Place(p, s, e, last, recent, depth))| <= |RecentSlots(s)| + One(recent)
    decreases depth
  {
    if depth > 0 {
      var locs := p.locs(e);
      var k := FreeIn(s, locs);
      if k != -1 {
        SlotsWith(RecentSlots(s), RecentSlots(Put(s, k, e, recent)), k);
      } else {
        var l := NextLoc(locs, last);
        assert l in locs;
        var n := s.(table := s.table[l := e], epoch := s.epoch[l := recent]);
        SlotsWith(RecentSlots(s), RecentSlots(n), l);
        assert !s.collect[l];
        assert l in RecentSlots(s) <==> s.epoch[l];
        assert l in RecentSlots(n) <==> recent;
        hide RecentSlots, FreeIn, NextLoc;
        PlaceRecent(p, n, s.table[l], l, s.epoch[l], depth - 1);
      }
    }
  }

  lemma InsertRecent(p: Params, s: State, e: Elem)
    requires Wf(p) && Shape(p, s)
    ensures |RecentSlots(Insert(p, s, e))| <= |RecentSlots(EpochCheck(p, s))| + 1 && Insert(p, s, e).counter == EpochCheck(p, s).counter
  {
    var t := EpochCheck(p, s);
    var k := FindIn(t, p.locs(e), e);
    if k != -1 {
      SlotsWith(RecentSlots(t), RecentSlots(Insert(p, s, e)), k);
    } else {
      PlaceRecent(p, t, e, -1, true, p.depthLimit);
      PlaceCounter(p, t, e, -1, true, p.depthLimit);
    }
  }

  lemma {:induction false} PlaceCounter(p: Params, s: State, e: Elem, last: int, recent: bool, depth: nat)
    requires Wf(p) && Shape(p, s)
    ensures Place(p, s, e, last, recent, depth).counter == s.counter
    decreases depth
  {
    if depth > 0 && FreeIn(s, p.locs(e)) == -1 {
      var l := NextLoc(p.locs(e), last);
      assert l in p.locs(e);
      PlaceCounter(p, s.(table := s.table[l := e], epoch := s.epoch[l := recent]), s.table[l], l, s.epoch[l], depth - 1);
    }
  }

  /** The slack an epoch may have beyond its size. */
  function Slack(p: Params): nat { Max(1, p.epochSize / 16) }

  ghost predicate EpochBounded(p: Params, s: State)
    requires Shape(p, s)
  {
    |RecentSlots(s)| + s.counter <= p.epochSize + Slack(p)
  }

  lemma CheckBounded(p: Params, s: State)
    requires Wf(p) && Shape(p, s) && EpochBounded(p, s)
    ensures |RecentSlots(EpochCheck(p, s))| + EpochCheck(p, s).counter <= p.epochSize + Slack(p) - One(s.counter > 0)
    ensures s.counter == 0 ==> |RecentSlots(EpochCheck(p, s))| + EpochCheck(p, s).counter <= p.epochSize + Slack(p) - 1
  {
    EpochAges(p, s);
    var r := EpochCheck(p, s);
    if s.counter == 0 && |RecentSlots(s)| >= p.epochSize { assert RecentSlots(r) == {}; } else { assert RecentSlots(r) == RecentSlots(s); }
  }

  lemma EraseBounded(p: Params, s: State, e: Elem)
    requires Wf(p) && Shape(p, s)
    ensures |RecentSlots(Erase(p, s, e))| <= |RecentSlots(s)| && Erase(p, s, e).counter == s.counter
  {
    var k, n := FindIn(s, p.locs(e), e), Erase(p, s, e);
    if k != -1 { SlotsWith(RecentSlots(s), RecentSlots(n), k); }
  }

  /** On every run the current epoch never outgrows its size by more than a sixteenth, or one. */
  lemma {:induction false} EpochStaysBounded(p: Params, ops: seq<Op>)
    requires Wf(p)
    ensures EpochBounded(p, Run(p, ops)) && |RecentSlots(Run(p, ops))| <= p.epochSize + Max(1, p.epochSize / 16)
  {
    if ops == [] {
      assert RecentSlots(New(p)) == {};
    } else {
      var rest, op := ops[..|ops| - 1], ops[|ops| - 1];
      EpochStaysBounded(p, rest);
      var s := Run(p, rest);
      hide RecentSlots, Insert, Erase, EpochCheck;
      match op {
        case InsertOp(e) =>
          CheckBounded(p, s);
          InsertRecent(p, s, e);
        case LookUp(e, erase) => EraseBounded(p, s, e);
      }
    }
  }
}
