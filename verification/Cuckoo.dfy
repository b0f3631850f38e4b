/** A cache with eight places per element, where inserting may push elements from place to place, and
    erased elements only give up their place when it is needed. */
module Cuckoo {

  import opened Basics

  datatype Elem = Elem(value: int)

  /** Places per element, the element empty slots hold, how far an insert may push, and how many fresh
      elements make an epoch. */
  datatype Params = Params(size: nat, locs: Elem -> seq<nat>, empty: Elem, depthLimit: nat, epochSize: nat)

  ghost predicate Wf(p: Params) {
    p.epochSize > 0 && forall e :: |p.locs(e)| == 8 && forall i :: 0 <= i < 8 ==> p.locs(e)[i] < p.size
  }

  /** The table; the slots that may be reused; the slots filled in the current epoch; and the countdown
      to the next look at the epoch. */
  datatype State = State(table: seq<Elem>, collect: seq<bool>, epoch: seq<bool>, counter: nat)

  predicate Shape(p: Params, s: State) {
    |s.table| == |s.collect| == |s.epoch| == p.size
  }

  /** Element i of the table is an inserted one. */
  predicate Used(p: Params, s: State, i: nat)
    requires i < |s.table|
  {
    s.table[i] != p.empty
  }

  /** Every element sits in one of its own places, in no two, and slots that must be kept hold one. */
  ghost predicate Inv(p: Params, s: State) {
    && Shape(p, s)
    && (forall i :: 0 <= i < p.size && Used(p, s, i) ==> i in p.locs(s.table[i]))
    && (forall i, j :: 0 <= i < j < p.size && Used(p, s, i) ==> s.table[i] != s.table[j])
    && forall i :: 0 <= i < p.size && !s.collect[i] ==> Used(p, s, i)
  }

  /** Elements in slots that must be kept. */
  function Kept(s: State): set<Elem>
    requires |s.collect| == |s.table|
  {
    set i | 0 <= i < |s.table| && !s.collect[i] :: s.table[i]
  }

  function Stored(p: Params, s: State): set<Elem> {
    set i | 0 <= i < |s.table| && s.table[i] != p.empty :: s.table[i]
  }

  // ---------------------------------------------------------------- lookups

  /** The first of the element's places that holds it. */
  function FindIn(s: State, locs: seq<nat>, e: Elem): (r: int)
    requires forall i :: 0 <= i < |locs| ==> locs[i] < |s.table|
    ensures r == -1 || (r in locs && 0 <= r < |s.table| && s.table[r] == e)
    ensures r == -1 ==> forall i :: 0 <= i < |locs| ==> s.table[locs[i]] != e
  {
    if locs == [] then -1
    else if s.table[locs[0]] == e then locs[0]
    else FindIn(s, locs[1..], e)
  }

  /** The first of the places that may be reused. */
  function FreeIn(s: State, locs: seq<nat>): (r: int)
    requires |s.collect| == |s.table| && forall i :: 0 <= i < |locs| ==> locs[i] < |s.table|
    ensures r == -1 || (r in locs && 0 <= r < |s.table| && s.collect[r])
    ensures r == -1 ==> forall i :: 0 <= i < |locs| ==> !s.collect[locs[i]]
  {
    if locs == [] then -1
    else if s.collect[locs[0]] then locs[0]
    else FreeIn(s, locs[1..])
  }

  /** Where loc stands among the places; past the end if it is none of them. */
  function IndexOf(locs: seq<nat>, loc: int): (r: nat)
    ensures r <= |locs|
  {
    if locs == [] then 0 else if locs[0] == loc then 0 else 1 + IndexOf(locs[1..], loc)
  }

  /** An element is looked up in its own places only, and that finds it wherever it is. */
  lemma FindsStored(p: Params, s: State, e: Elem)
    requires Wf(p) && Inv(p, s) && e != p.empty
    ensures FindIn(s, p.locs(e), e) != -1 <==> e in Stored(p, s)
  {
    var r := FindIn(s, p.locs(e), e);
    if e in Stored(p, s) {
      var i :| 0 <= i < |s.table| && s.table[i] != p.empty && s.table[i] == e;
      assert Used(p, s, i) && i in p.locs(e);
    }
  }

  // ---------------------------------------------------------------- steps

  function Put(s: State, k: nat, e: Elem, recent: bool): State
    requires k < |s.table| == |s.collect| == |s.epoch|
  {
    s.(table := s.table[k := e], collect := s.collect[k := false], epoch := s.epoch[k := recent])
  }

  /** The place to push the next element out of: the one after last, or the second of all. */
  function NextLoc(locs: seq<nat>, last: int): nat
    requires |locs| == 8
  {
    locs[(1 + IndexOf(locs, last)) % 8]
  }

  /** Placing e with what is left of the depth; an element in hand when the depth runs out is lost. */
  ghost function Place(p: Params, s: State, e: Elem, last: int, recent: bool, depth: nat): (r: State)
    requires Wf(p) && Shape(p, s)
    ensures Shape(p, r)
    decreases depth
  {
    if depth == 0 then s
    else
      var locs := p.locs(e);
      var k := FreeIn(s, locs);
      if k != -1 then Put(s, k, e, recent)
      else
        var l := NextLoc(locs, last);
        Place(p, s.(table := s.table[l := e], epoch := s.epoch[l := recent]), s.table[l], l, s.epoch[l], depth - 1)
  }

  /** An element on its way: it is nowhere in the table. */
  ghost predicate Holding(p: Params, s: State, e: Elem) {
    Inv(p, s) && e != p.empty && forall i :: 0 <= i < p.size ==> s.table[i] != e
  }

  lemma PutKeeps(p: Params, s: State, k: nat, e: Elem, recent: bool)
    requires Holding(p, s, e) && k < p.size && k in p.locs(e) && s.collect[k]
    ensures Inv(p, Put(s, k, e, recent))
    ensures Kept(Put(s, k, e, recent)) == Kept(s) + {e} && Stored(p, Put(s, k, e, recent)) <= Stored(p, s) + {e}
  {
    var n := Put(s, k, e, recent);
    forall x | x in Kept(s) + {e} ensures x in Kept(n) {
      if x == e {
        assert n.table[k] == e && !n.collect[k];
      } else {
        var i :| 0 <= i < |s.table| && !s.collect[i] && s.table[i] == x;
        assert n.table[i] == x && !n.collect[i];
      }
    }
  }

  /** The element in hand and the one in a slot that must be kept trade places. */
  lemma SwapKeeps(p: Params, s: State, l: nat, e: Elem, recent: bool)
    requires Holding(p, s, e) && l < p.size && l in p.locs(e) && !s.collect[l]
    ensures var n := s.(table := s.table[l := e], epoch := s.epoch[l := recent]);
      Holding(p, n, s.table[l]) && Kept(n) + {s.table[l]} == Kept(s) + {e} && Stored(p, n) + {s.table[l]} == Stored(p, s) + {e}
  {
    var n := s.(table := s.table[l := e], epoch := s.epoch[l := recent]);
    assert Used(p, s, l);
    forall x | x in Kept(s) + {e} ensures x in Kept(n) + {s.table[l]} {
      if x == e {
        assert n.table[l] == e && !n.collect[l];
      } else if x != s.table[l] {
        var i :| 0 <= i < |s.table| && !s.collect[i] && s.table[i] == x;
        assert n.table[i] == x && !n.collect[i];
      }
    }
    forall x | x in Stored(p, s) + {e} ensures x in Stored(p, n) + {s.table[l]} {
      if x == e {
        assert n.table[l] == e;
      } else if x != s.table[l] {
        var i :| 0 <= i < |s.table| && s.table[i] != p.empty && s.table[i] == x;
        assert n.table[i] == x;
      }
    }
  }

  /** Placing an element loses at most one of it and the kept ones. */
  lemma {:induction false} PlaceKeeps(p: Params, s: State, e: Elem, last: int, recent: bool, depth: nat) returns (lost: Elem)
    requires Wf(p) && Holding(p, s, e)
    ensures var n := Place(p, s, e, last, recent, depth);
      Inv(p, n) && Kept(n) + {lost} == Kept(s) + {e} && Stored(p, n) <= Stored(p, s) + {e}
    decreases depth
  {
    lost := e;
    if depth > 0 {
      var locs := p.locs(e);
      var k := FreeIn(s, locs);
      if k != -1 {
        PutKeeps(p, s, k, e, recent);
      } else {
        var l := NextLoc(locs, last);
        assert l in locs;
        SwapKeeps(p, s, l, e, recent);
        var n := s.(table := s.table[l := e], epoch := s.epoch[l := recent]);
        hide Inv, Kept, Stored, Holding, FreeIn, NextLoc;
        lost := PlaceKeeps(p, n, s.table[l], l, s.epoch[l], depth - 1);
      }
    }
  }

  // ---------------------------------------------------------------- epochs

  /** Slots filled in the current epoch that must still be kept. */
  function Recent(s: State, n: nat): (r: nat)
    requires n <= |s.epoch| == |s.collect|
    ensures r <= n
  {
    if n == 0 then 0 else Recent(s, n - 1) + if s.epoch[n - 1] && !s.collect[n - 1] then 1 else 0
  }

  /** Slots of older epochs may be reused, those of the current one become old. */
  function Aged(p: Params, s: State): State
    requires Shape(p, s)
  {
    s.(collect := seq(p.size, i requires 0 <= i < p.size => s.collect[i] || !s.epoch[i]), epoch := seq(p.size, _ => false))
  }

  /** Ages the table when enough slots belong to the current epoch. */
  function EpochCheck(p: Params, s: State): (r: State)
    requires Shape(p, s)
    ensures Shape(p, r)
  {
    if s.counter != 0 then s.(counter := s.counter - 1)
    else
      var recent := Recent(s, p.size);
      if recent >= p.epochSize
      then Aged(p, s).(counter := p.epochSize)
      else s.(counter := Max(1, Max(p.epochSize / 16, p.epochSize - recent)))
  }

  /** Ageing moves nothing, and takes protection only from slots of older epochs. */
  lemma EpochKeeps(p: Params, s: State)
    requires Inv(p, s)
    ensures Inv(p, EpochCheck(p, s)) && EpochCheck(p, s).table == s.table && Kept(EpochCheck(p, s)) <= Kept(s)
    ensures forall i :: 0 <= i < p.size && !s.collect[i] && s.epoch[i] ==> !EpochCheck(p, s).collect[i]
  {
  }

  // ---------------------------------------------------------------- operations

  ghost function Insert(p: Params, s: State, e: Elem): (r: State)
    requires Wf(p) && Shape(p, s)
    ensures Shape(p, r)
  {
    var t := EpochCheck(p, s);
    var k := FindIn(t, p.locs(e), e);
    if k != -1 then t.(collect := t.collect[k := false], epoch := t.epoch[k := true])
    else Place(p, t, e, -1, true, p.depthLimit)
  }

  ghost function Erase(p: Params, s: State, e: Elem): (r: State)
    requires Wf(p) && Shape(p, s)
    ensures Shape(p, r)
  {
    var k := FindIn(s, p.locs(e), e);
    if k == -1 then s else s.(collect := s.collect[k := true])
  }

  lemma RefreshKeeps(p: Params, s: State, k: nat)
    requires Inv(p, s) && k < p.size && Used(p, s, k)
    ensures var n := s.(collect := s.collect[k := false], epoch := s.epoch[k := true]);
      Inv(p, n) && Kept(n) == Kept(s) + {s.table[k]} && Stored(p, n) == Stored(p, s)
  {
    var n := s.(collect := s.collect[k := false], epoch := s.epoch[k := true]);
    forall x | x in Kept(s) + {s.table[k]} ensures x in Kept(n) {
      if x == s.table[k] {
        assert n.table[k] == x && !n.collect[k];
      } else {
        var i :| 0 <= i < |s.table| && !s.collect[i] && s.table[i] == x;
        assert n.table[i] == x && !n.collect[i];
      }
    }
  }

  /** After the epoch check, an insert adds its element to the kept ones and loses at most one of all. */
  lemma InsertKeeps(p: Params, s: State, e: Elem) returns (lost: Elem)
    requires Wf(p) && Inv(p, s) && e != p.empty
    ensures var n := Insert(p, s, e);
      Inv(p, n) && Kept(n) + {lost} == Kept(EpochCheck(p, s)) + {e} && Stored(p, n) <= Stored(p, s) + {e}
  {
    EpochKeeps(p, s);
    var t := EpochCheck(p, s);
    var k := FindIn(t, p.locs(e), e);
    if k != -1 {
      RefreshKeeps(p, t, k);
      lost := e;
    } else {
      FindsStored(p, t, e);
      assert Holding(p, t, e) by {
        assert forall i :: 0 <= i < p.size && Used(p, t, i) ==> t.table[i] in Stored(p, t);
      }
      lost := PlaceKeeps(p, t, e, -1, true, p.depthLimit);
    }
  }

  lemma EraseKeeps(p: Params, s: State, e: Elem)
    requires Wf(p) && Inv(p, s)
    ensures Inv(p, Erase(p, s, e)) && Erase(p, s, e).table == s.table
    ensures e != p.empty ==> Kept(Erase(p, s, e)) == Kept(s) - {e}
  {
    var n := Erase(p, s, e);
    if e != p.empty {
      FindsStored(p, s, e);
      forall x | x in Kept(s) - {e} ensures x in Kept(n) {
        var i :| 0 <= i < |s.table| && !s.collect[i] && s.table[i] == x;
        assert n.table[i] == x && !n.collect[i];
      }
      assert forall i :: 0 <= i < p.size && Used(p, s, i) ==> s.table[i] in Stored(p, s);
    }
  }

  // ---------------------------------------------------------------- runs

  datatype Op = InsertOp(e: Elem) | LookUp(e: Elem, erase: bool)

  predicate Proper(p: Params, ops: seq<Op>) {
    forall i :: 0 <= i < |ops| && ops[i].InsertOp? ==> ops[i].e != p.empty
  }

  function Inserted(ops: seq<Op>): set<Elem> {
    set op | op in ops && op.InsertOp? :: op.e
  }

  ghost function Step(p: Params, s: State, op: Op): (r: State)
    requires Wf(p) && Shape(p, s)
    ensures Shape(p, r)
  {
    match op
    case InsertOp(e) => Insert(p, s, e)
    case LookUp(e, erase) => if erase then Erase(p, s, e) else s
  }

  function New(p: Params): State {
    State(seq(p.size, _ => p.empty), seq(p.size, _ => true), seq(p.size, _ => false), p.epochSize)
  }

  /** The cache after a run of operations. */
  ghost function Run(p: Params, ops: seq<Op>): (r: State)
    requires Wf(p)
    ensures Shape(p, r)
  {
    if ops == [] then New(p) else Step(p, Run(p, ops[..|ops| - 1]), ops[|ops| - 1])
  }

  /** On every run each element is in one of its own places and in no two, and only inserted elements
      are stored. */
  lemma {:induction false} RunKeeps(p: Params, ops: seq<Op>)
    requires Wf(p) && Proper(p, ops)
    ensures Inv(p, Run(p, ops)) && Stored(p, Run(p, ops)) <= Inserted(ops)
  {
    if ops != [] {
      var rest, op := ops[..|ops| - 1], ops[|ops| - 1];
      RunKeeps(p, rest);
      assert ops == rest + [op] && op in ops;
      match op {
        case InsertOp(e) =>
          var lost := InsertKeeps(p, Run(p, rest), e);
        case LookUp(e, erase) =>
          EraseKeeps(p, Run(p, rest), e);
      }
    }
  }

  /** On any run a lookup finds only inserted elements, and finds them again after marking them for
      reuse. */
  lemma LookUpAnswers(p: Params, ops: seq<Op>, e: Elem)
    requires Wf(p) && Proper(p, ops) && e != p.empty && FindIn(Run(p, ops), p.locs(e), e) != -1
    ensures e in Inserted(ops) && FindIn(Run(p, ops + [LookUp(e, true)]), p.locs(e), e) != -1
  {
    var s, more := Run(p, ops), ops + [LookUp(e, true)];
    RunKeeps(p, ops);
    FindsStored(p, s, e);
    EraseKeeps(p, s, e);
    assert more[..|more| - 1] == ops;
    FindsStored(p, Erase(p, s, e), e);
  }
}
