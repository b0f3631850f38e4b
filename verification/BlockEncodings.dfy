/** The block under reconstruction: slots filled in place from the announcement, the memory pool and
    the extra transactions, then from what the peer sends for the rest. */
module BlockEncodings {

  import opened Basics
  import opened CompactBlock

  /** The first i ids have passed the first i free slots, with offset prefilled ones between. */
  ghost predicate Passed(a: Announcement, i: nat, offset: nat) {
    i <= |a.ids| == |Free(Start(a))| && i + offset <= TxCount(a) && offset == Count(Start(a)[..i + offset])
  }

  /** m maps the first i ids to places; with as many entries as ids no two of them are equal. */
  ghost predicate Mapped(ids: seq<ShortId>, places: seq<nat>, m: map<ShortId, nat>, i: nat) {
    && i <= |ids| == |places| && |m| <= i && OnlyThese(ids, m, i)
    && (|m| == i ==> AllMapped(ids, places, m, i))
  }

  predicate OnlyThese(ids: seq<ShortId>, m: map<ShortId, nat>, i: nat)
    requires i <= |ids|
  {
    forall id :: id in m ==> id in ids[..i]
  }

  predicate AllMapped(ids: seq<ShortId>, places: seq<nat>, m: map<ShortId, nat>, i: nat)
    requires i <= |ids| == |places|
  {
    && (forall j :: 0 <= j < i ==> ids[j] in m && m[ids[j]] == places[j])
    && forall j, k :: 0 <= j < k < i ==> ids[j] != ids[k]
  }

  lemma OnlyStep(ids: seq<ShortId>, m: map<ShortId, nat>, i: nat, place: nat)
    requires i < |ids| && OnlyThese(ids, m, i)
    ensures OnlyThese(ids, m[ids[i] := place], i + 1)
  {
    assert ids[..i + 1] == ids[..i] + [ids[i]];
  }

  lemma AllStep(ids: seq<ShortId>, places: seq<nat>, m: map<ShortId, nat>, i: nat)
    requires i < |ids| == |places| && AllMapped(ids, places, m, i) && ids[i] !in m
    ensures AllMapped(ids, places, m[ids[i] := places[i]], i + 1)
  {
  }

  lemma SizeStep(m: map<ShortId, nat>, id: ShortId, place: nat)
    ensures |m[id := place]| == if id in m then |m| else |m| + 1
  {
    assert m[id := place].Keys == m.Keys + {id};
    if id in m { assert m[id := place].Keys == m.Keys; }
  }

  lemma MapStep(ids: seq<ShortId>, places: seq<nat>, m: map<ShortId, nat>, i: nat)
    requires Mapped(ids, places, m, i) && i < |ids|
    ensures Mapped(ids, places, m[ids[i] := places[i]], i + 1)
  {
    hide OnlyThese, AllMapped;
    OnlyStep(ids, m, i, places[i]);
    SizeStep(m, ids[i], places[i]);
    if |m| == i && ids[i] !in m { AllStep(ids, places, m, i); }
  }

  /** While ids remain there is a free slot left for the next. */
  lemma MoreFree(a: Announcement, i: nat, offset: nat)
    requires Passed(a, i, offset) && i < |a.ids|
    ensures i + offset < TxCount(a)
  {
    assert Start(a)[..TxCount(a)] == Start(a);
  }

  lemma PassFilled(a: Announcement, i: nat, offset: nat)
    requires Passed(a, i, offset) && i < |a.ids| && i + offset < TxCount(a) && Start(a)[i + offset].Some?
    ensures Passed(a, i, offset + 1) && i + offset + 1 < TxCount(a)
  {
    CountNext(Start(a), i + offset);
    assert i + (offset + 1) == i + offset + 1;
    MoreFree(a, i, offset + 1);
  }

  lemma PassFree(a: Announcement, i: nat, offset: nat)
    requires Passed(a, i, offset) && i < |a.ids| && i + offset < TxCount(a) && Start(a)[i + offset].None?
    ensures Passed(a, i + 1, offset) && Free(Start(a))[i] == i + offset
  {
    CountNext(Start(a), i + offset);
    FreeNext(Start(a), i, i + offset);
    assert i + 1 + offset == i + offset + 1;
  }

  /** The offset counts prefilled transactions. */
  lemma OffsetFits(a: Announcement, i: nat, offset: nat)
    requires Passed(a, i, offset)
    ensures offset <= |a.prefilled|
  {
    CountSplit(Start(a), i + offset);
  }

  class PartiallyDownloadedBlock {
    const pool: seq<Tx>
    const maxTxCount: nat
    var headerNull: bool
    var slots: Slots
    var prefilledCount: nat
    var mempoolCount: int

    constructor (pool: seq<Tx>, maxTxCount: nat)
      ensures headerNull && slots == [] && prefilledCount == mempoolCount == 0
      ensures this.pool == pool && this.maxTxCount == maxTxCount
    {
      this.pool, this.maxTxCount := pool, maxTxCount;
      headerNull, slots, prefilledCount, mempoolCount := true, [], 0, 0;
    }

    /** Puts the prefilled transactions into their slots. */
    method Place(a: Announcement) returns (ok: bool)
      requires slots == seq(TxCount(a), _ => None)
      modifies `slots
      ensures ok <==> Placeable(a)
      ensures ok ==> slots == Start(a)
    {
      var last := -1;
      for i := 0 to |a.prefilled|
        invariant last == LastIndex(a.prefilled, i) && slots == Prefill(a, i)
        invariant forall j :: 0 <= j < i ==> PlaceableAt(a, j)
      {
        if a.prefilled[i].tx.None? {
          assert !PlaceableAt(a, i);
          return false;
        }
        last := last + a.prefilled[i].index + 1;
        if last > MAX_INDEX {
          assert !PlaceableAt(a, i);
          return false;
        }
        if last > |a.ids| + i {
          assert !PlaceableAt(a, i);
          return false;
        }
        assert PlaceableAt(a, i);
        slots := slots[last := a.prefilled[i].tx];
      }
      return true;
    }

    /** Passes over filled slots to the next free one, by a 16-bit offset. */
    method SkipFilled(a: Announcement, i: nat, offset: nat) returns (next: nat)
      requires slots == Start(a) && Passed(a, i, offset) && i < |a.ids| && |a.prefilled| <= MAX_INDEX
      ensures i + next < |slots| && slots[i + next].None? && Passed(a, i, next)
    {
      hide Start, Count, Free, Passed;
      next := offset;
      MoreFree(a, i, offset);
      while slots[i + next].Some?
        invariant i + next < |slots| && Passed(a, i, next)
        decreases |slots| - next
      {
        PassFilled(a, i, next);
        OffsetFits(a, i, next + 1);
        next := (next + 1) % PLACES;
      }
    }

    /** Finds the slot of every short id, as a 16-bit number. */
    method Locate(a: Announcement) returns (ok: bool, m: map<ShortId, nat>)
      requires Placeable(a) && slots == Start(a) && !Endless(a)
      ensures ok ==> Recorded(a, m) && Distinct(a.ids)
    {
      m := map[];
      var offset := 0;
      hide Start, Count, Free, Passed, Placeable, Mapped;
      PassStart(a);
      for i := 0 to |a.ids|
        invariant offset >= 0 && Passed(a, i, offset) && |Places(a)| == |a.ids| && Mapped(a.ids, Places(a), m, i)
      {
        offset := SkipFilled(a, i, offset);
        PassFree(a, i, offset);
        assert Places(a)[i] == (i + offset) % PLACES;
        MapStep(a.ids, Places(a), m, i);
        m := m[a.ids[i] := (i + offset) % PLACES];
        if * { return false, m; }
      }
      ok := |m| == |a.ids|;
      if ok { MapDone(a, m); }
    }

    /** Offers transactions one by one, until every id is matched. */
    method Match(m: map<ShortId, nat>, short: Tx -> ShortId, offers: seq<Tx>, extra: bool, have: seq<bool>) returns (h: seq<bool>)
      requires |have| == |slots| && forall id :: id in m ==> m[id] < |slots|
      modifies `slots, `mempoolCount
      ensures Scan(slots, h, mempoolCount) == OfferAll(m, short, old(Scan(slots, have, mempoolCount)), offers, extra)
    {
      h := have;
      assert offers[0..] == offers;
      hide Offer;
      for i := 0 to |offers|
        invariant |h| == |slots| == old(|slots|)
        invariant OfferAll(m, short, Scan(slots, h, mempoolCount), offers[i..], extra) ==
          OfferAll(m, short, old(Scan(slots, have, mempoolCount)), offers, extra)
      {
        assert offers[i..][1..] == offers[i + 1..];
        h := TryOffer(m, short, offers[i], extra, h);
        if mempoolCount == |m| { return; }
      }
    }

    method TryOffer(m: map<ShortId, nat>, short: Tx -> ShortId, t: Tx, extra: bool, have: seq<bool>) returns (h: seq<bool>)
      requires |have| == |slots| && forall id :: id in m ==> m[id] < |slots|
      modifies `slots, `mempoolCount
      ensures Scan(slots, h, mempoolCount) == Offer(m, short, old(Scan(slots, have, mempoolCount)), t, extra)
    {
      h := have;
      var id := short(t);
      if id in m {
        var k := m[id];
        if !h[k] {
          slots := slots[k := Some(t)];
          h := h[k := true];
          mempoolCount := mempoolCount + 1;
        } else if slots[k].Some? && (!extra || slots[k].value.hash != t.hash) {
          slots := slots[k := None];
          mempoolCount := mempoolCount - 1;
        }
      }
    }

    /** Takes an announcement apart and fills every slot it can. */
    method InitData(a: Announcement, short: Tx -> ShortId, extra: seq<Tx>) returns (r: Status)
      requires headerNull && slots == [] && mempoolCount == 0
      requires a.headerNull || TxCount(a) > maxTxCount || !Endless(a)
      modifies this
      ensures r == INVALID <==> a.headerNull || TxCount(a) == 0 || TxCount(a) > maxTxCount || !Placeable(a)
      ensures r == OK || r == INVALID || r == FAILED
      ensures r == OK ==> prefilledCount == |a.prefilled|
      ensures r == OK ==> !headerNull && Distinct(a.ids) && FilledFrom(a, short, pool, extra, slots, mempoolCount)
      ensures r == OK && TxCount(a) <= PLACES ==> Ready(a, short, Known(pool, extra), slots, mempoolCount)
    {
      if a.headerNull || (a.ids == [] && a.prefilled == []) { return INVALID; }
      if |a.ids| + |a.prefilled| > maxTxCount { return INVALID; }
      headerNull := false;
      slots := seq(TxCount(a), _ => None);
      var placed := Place(a);
      if !placed { return INVALID; }
      prefilledCount := |a.prefilled|;
      hide Placeable, Recorded, Start, Ready, Distinct, Places, OfferAll, Known;
      var ok, m := Locate(a);
      if !ok { return FAILED; }
      var have := seq(TxCount(a), _ => false);
      RecordedInRange(a, m);
      have := Match(m, short, pool, false, have);
      have := Match(m, short, extra, true, have);
      assert Scan(slots, have, mempoolCount) == Matching(a, m, short, pool, extra);
      if TxCount(a) <= PLACES { MatchingReady(a, m, short, pool, extra); }
      return OK;
    }

    /** Completes the block with the missing transactions. Transactions leave their slots as they go;
        once all slots are passed the object is spent. */
    method FillBlock(missing: seq<Tx>, blockValid: bool, corruptionPossible: bool) returns (r: Status, vtx: seq<Tx>)
      requires !headerNull
      modifies this
      ensures |missing| < old(|slots| - Count(slots)) ==> r == INVALID && !headerNull
      ensures |missing| >= old(|slots| - Count(slots)) ==>
        headerNull && slots == [] && vtx == Filled(old(slots), missing[..old(|slots| - Count(slots))])
      ensures |missing| > old(|slots| - Count(slots)) ==> r == INVALID
      ensures |missing| == old(|slots| - Count(slots)) ==>
        r == if blockValid then OK else if corruptionPossible then FAILED else CHECKBLOCK_FAILED
    {
      vtx := [];
      var offset := 0;
      ghost var all := slots;
      assert all[..0] == [];
      CountSplit(all, 0);
      hide Count, Filled;
      for i := 0 to |slots|
        invariant |slots| == |all| && !headerNull && slots[i..] == all[i..]
        invariant 0 <= offset == i - Count(all[..i]) && offset <= |missing|
        invariant vtx == Filled(all[..i], missing[..offset])
      {
        FillStep(all, missing, i, offset);
        CountSplit(all, i + 1);
        assert slots[i] == all[i];
        if slots[i].None? {
          if |missing| <= offset { return INVALID, vtx; }
          vtx := vtx + [missing[offset]];
          offset := offset + 1;
        } else {
          vtx := vtx + [slots[i].value];
          slots := slots[i := None];
        }
      }
      assert all[..|all|] == all;
      headerNull := true;
      slots := [];
      if |missing| != offset { return INVALID, vtx; }
      if !blockValid {
        if corruptionPossible { return FAILED, vtx; }
        return CHECKBLOCK_FAILED, vtx;
      }
      return OK, vtx;
    }
  }

  lemma FillStep(slots: Slots, missing: seq<Tx>, i: nat, offset: nat)
    requires i < |slots| && offset == i - Count(slots[..i]) && offset <= |missing|
    ensures Count(slots[..i + 1]) == Count(slots[..i]) + if slots[i].Some? then 1 else 0
    ensures slots[i].Some? ==> Filled(slots[..i + 1], missing[..offset]) == Filled(slots[..i], missing[..offset]) + [slots[i].value]
    ensures slots[i].None? && offset < |missing| ==>
      Filled(slots[..i + 1], missing[..offset + 1]) == Filled(slots[..i], missing[..offset]) + [missing[offset]]
  {
    assert slots[..i + 1][..i] == slots[..i];
    if offset < |missing| { assert missing[..offset + 1][..offset] == missing[..offset]; }
  }

  lemma PassStart(a: Announcement)
    requires Placeable(a)
    ensures Passed(a, 0, 0) && |Free(Start(a))| == |a.ids| == |Places(a)| && Mapped(a.ids, Places(a), map[], 0)
  {
    PrefillIs(a, |a.prefilled|);
    assert Start(a)[..0] == [];
  }

  lemma MapDone(a: Announcement, m: map<ShortId, nat>)
    requires |Places(a)| == |a.ids| && Mapped(a.ids, Places(a), m, |a.ids|) && |m| == |a.ids|
    ensures Recorded(a, m) && Distinct(a.ids)
  {
    assert a.ids[..|a.ids|] == a.ids;
  }

  // ---------------------------------------------------------------- differential indexes

  const WORD: nat := 0x1_0000_0000_0000_0000

  /** An int as the 64-bit word it is sent as. */
  function Word(x: int): nat { x % WORD }

  lemma WordIs(x: int)
    requires -0x1_0000 <= x <= MAX_INDEX
    ensures Word(x) == if x < 0 then x + WORD else x
  {
  }

  /** An index less the one after the last index before it. */
  function Gap(before: seq<nat>, index: nat): int {
    if before == [] then index else index as int - before[|before| - 1] as int - 1
  }

  /** The place after an index, in 16 bits. */
  function After(index: nat): nat { (index + 1) % (MAX_INDEX + 1) }

  lemma AfterIs(index: nat)
    requires index <= MAX_INDEX
    ensures After(index) == if index == MAX_INDEX then 0 else index + 1
  {
  }

  /** What is sent: each index less the one after the previous index, as a 64-bit word. */
  function Sent(indexes: seq<nat>): (d: seq<nat>)
    ensures |d| == |indexes|
  {
    if indexes == [] then []
    else
      var last := |indexes| - 1;
      Sent(indexes[..last]) + [Word(Gap(indexes[..last], indexes[last]))]
  }

  /** What the reader adds to the next word: the place after the last index, in 16 bits. */
  function Offset(indexes: seq<nat>): nat {
    if indexes == [] then 0 else After(indexes[|indexes| - 1])
  }

  /** What is read: nothing, if an index does not fit in 16 bits. */
  function Received(d: seq<nat>): (r: Option<seq<nat>>)
    ensures r.Some? ==> |r.value| == |d| && forall i :: 0 <= i < |d| ==> r.value[i] <= MAX_INDEX
  {
    if d == [] then Some([])
    else
      var before := Received(d[..|d| - 1]);
      if before.None? || d[|d| - 1] + Offset(before.value) > MAX_INDEX then None
      else Some(before.value + [d[|d| - 1] + Offset(before.value)])
  }

  predicate Increasing(indexes: seq<nat>) {
    forall i, j :: 0 <= i < j < |indexes| ==> indexes[i] < indexes[j]
  }

  lemma {:induction false} StaysRefused(d: seq<nat>, j: nat)
    requires j <= |d| && Received(d[..j]).None?
    ensures Received(d).None?
  {
    if j == |d| {
      assert d[..j] == d;
    } else {
      assert d[..|d| - 1][..j] == d[..j];
      StaysRefused(d[..|d| - 1], j);
    }
  }

  const CHUNK: nat := 1000

  /** Reads the words, making room for some at a time. */
  method ReadWords(d: seq<nat>) returns (r: Option<seq<nat>>)
    ensures r == if forall i :: 0 <= i < |d| ==> d[i] <= MAX_INDEX then Some(d) else None
  {
    var words: seq<nat> := [];
    var i := 0;
    while |words| < |d|
      invariant i == |words| <= |d| && words == d[..i]
      invariant forall k :: 0 <= k < i ==> d[k] <= MAX_INDEX
    {
      var size := Min(CHUNK + |words|, |d|);
      words := words + seq(size - |words|, _ => 0);
      while i < |words|
        invariant i <= |words| == size && words[..i] == d[..i]
        invariant forall k :: 0 <= k < i ==> d[k] <= MAX_INDEX
      {
        if d[i] > MAX_INDEX { return None; }
        words := words[i := d[i]];
        i := i + 1;
      }
    }
    assert words == d;
    return Some(words);
  }

  lemma TooLarge(d: seq<nat>, i: nat)
    requires i < |d| && d[i] > MAX_INDEX
    ensures Received(d).None?
  {
    hide Offset;
    var e := d[..i + 1];
    assert e[|e| - 1] == d[i];
    StaysRefused(d, i + 1);
  }

  /** Reads the words, then makes indexes of them in place. */
  method ReadIndexes(d: seq<nat>) returns (r: Option<seq<nat>>)
    ensures r == Received(d)
  {
    var words := ReadWords(d);
    if words.None? {
      ghost var i :| 0 <= i < |d| && d[i] > MAX_INDEX;
      TooLarge(d, i);
      return None;
    }
    var indexes := words.value;
    var offset := 0;
    assert indexes[..0] == d[..0] == [];
    hide After, Offset, Received;
    NothingRead();
    for j := 0 to |indexes|
      invariant |indexes| == |d| && indexes[j..] == d[j..]
      invariant Received(d[..j]) == Some(indexes[..j]) && offset == Offset(indexes[..j])
    {
      var word := indexes[j];
      assert word == d[j] && d[..j + 1] == d[..j] + [d[j]];
      if word + offset > MAX_INDEX {
        ReceivedNot(d[..j], d[j]);
        StaysRefused(d, j + 1);
        return None;
      }
      ReceivedMore(d[..j], indexes[..j], d[j], word + offset);
      NextOffset(indexes[..j], word + offset);
      ghost var before := indexes;
      indexes := indexes[j := word + offset];
      assert indexes[..j + 1] == before[..j] + [word + offset];
      offset := After(indexes[j]);
    }
    assert indexes[..|indexes|] == indexes && d[..|d|] == d;
    return Some(indexes);
  }

  lemma NextOffset(s: seq<nat>, x: nat)
    ensures Offset(s + [x]) == After(x)
  {
  }

  /** A word more that fits. */
  lemma ReceivedMore(d: seq<nat>, q: seq<nat>, w: nat, x: nat)
    requires Received(d) == Some(q) && x == w + Offset(q) <= MAX_INDEX
    ensures Received(d + [w]) == Some(q + [x])
  {
    var e := d + [w];
    assert e[..|d|] == d;
    hide Offset;
    assert Received(e[..|e| - 1]) == Some(q) && e[|e| - 1] == w;
  }

  /** A word more that does not. */
  lemma ReceivedNot(d: seq<nat>, w: nat)
    requires Received(d).Some? ==> w + Offset(Received(d).value) > MAX_INDEX
    ensures Received(d + [w]).None?
  {
    var e := d + [w];
    assert e[..|d|] == d;
    hide Offset;
    assert Received(e[..|e| - 1]) == Received(d) && e[|e| - 1] == w;
  }

  lemma SentMore(p: seq<nat>, x: nat)
    ensures Sent(p + [x]) == Sent(p) + [Word(Gap(p, x))]
  {
    hide Word, Gap;
    assert (p + [x])[..|p|] == p;
  }

  lemma IncreasingMore(p: seq<nat>, x: nat)
    ensures Increasing(p + [x]) <==> Increasing(p) && (p == [] || p[|p| - 1] < x)
  {
    var s := p + [x];
    assert forall i :: 0 <= i < |p| ==> s[i] == p[i];
    if Increasing(s) {
      assert p != [] ==> s[|p| - 1] < s[|p|];
    }
  }

  /** A word fits after the indexes before it exactly when its index is above them, and reads as it. */
  lemma WordFits(p: seq<nat>, x: nat)
    requires x <= MAX_INDEX && (p != [] ==> p[|p| - 1] <= MAX_INDEX)
    ensures var y := Word(Gap(p, x)) + Offset(p);
      if p == [] || p[|p| - 1] < x then y == x else y > MAX_INDEX
  {
    hide Word, After;
    WordIs(Gap(p, x));
    if p != [] { AfterIs(p[|p| - 1]); }
  }

  /** One index more after indexes that came back. */
  lemma RoundTripMore(p: seq<nat>, x: nat)
    requires Received(Sent(p)) == Some(p) && x <= MAX_INDEX && (p != [] ==> p[|p| - 1] < x)
    ensures Received(Sent(p + [x])) == Some(p + [x])
  {
    hide *;
    var d, w := Sent(p), Word(Gap(p, x));
    WordFits(p, x);
    ReceivedMore(d, p, w, x);
    SentMore(p, x);
  }

  lemma RoundTripFalls(p: seq<nat>, x: nat)
    requires Received(Sent(p)) == Some(p) && x <= MAX_INDEX && p != [] && x <= p[|p| - 1] <= MAX_INDEX
    ensures Received(Sent(p + [x])).None?
  {
    WordFits(p, x);
    hide *;
    SentMore(p, x);
    ReceivedNot(Sent(p), Word(Gap(p, x)));
  }

  lemma RefusedMore(p: seq<nat>, x: nat)
    requires Received(Sent(p)).None? && !Increasing(p)
    ensures Received(Sent(p + [x])).None? && !Increasing(p + [x])
  {
    hide *;
    var d, w := Sent(p), Word(Gap(p, x));
    ReceivedNot(d, w);
    SentMore(p, x);
    IncreasingMore(p, x);
  }

  /** Indexes come back as they were sent exactly when they increase; any others are refused. */
  lemma {:induction false} IndexesRoundTrip(s: seq<nat>)
    requires forall i :: 0 <= i < |s| ==> s[i] <= MAX_INDEX
    ensures Received(Sent(s)) == if Increasing(s) then Some(s) else None
  {
    if s != [] {
      var p, x := s[..|s| - 1], s[|s| - 1];
      assert s == p + [x];
      IndexesRoundTrip(p);
      IncreasingMore(p, x);
      if !Increasing(p) {
        RefusedMore(p, x);
      } else if p != [] && x <= p[|p| - 1] {
        RoundTripFalls(p, x);
      } else {
        RoundTripMore(p, x);
      }
    }
  }

  function Sum(d: seq<nat>): nat {
    if d == [] then 0 else Sum(d[..|d| - 1]) + d[|d| - 1]
  }

  /** What is accepted need not increase: after the highest index the offset starts again at 0. */
  lemma IndexesMayFall()
    ensures Received([MAX_INDEX, 0]) == Some([MAX_INDEX, 0]) && !Increasing([MAX_INDEX, 0])
  {
    assert [] + [MAX_INDEX] == [MAX_INDEX] && [MAX_INDEX] + [0] == [MAX_INDEX, 0];
    ReceivedMore([], [], MAX_INDEX, MAX_INDEX);
    ReceivedMore([MAX_INDEX], [MAX_INDEX], 0, 0);
    IncreasingMore([MAX_INDEX], 0);
  }

  /** Words that do not add up beyond the highest index, and their last index. */
  predicate Bounded(d: seq<nat>) { Sum(d) + |d| <= MAX_INDEX + 1 }

  predicate ReadsAs(d: seq<nat>, s: seq<nat>) {
    Sent(s) == d && |s| == |d| && (d != [] ==> s[|d| - 1] == Sum(d) + |d| - 1)
  }

  lemma SumMore(p: seq<nat>, x: nat)
    ensures Sum(p + [x]) == Sum(p) + x
  {
    assert (p + [x])[..|p|] == p;
  }

  lemma NothingRead()
    ensures Received([]) == Some([]) && Offset([]) == 0 && Increasing([]) && Bounded([]) && ReadsAs([], [])
  {
  }

  /** The offset after indexes read from bounded words: their number and sum, or 0 after the highest. */
  lemma OffsetIs(p: seq<nat>, q: seq<nat>)
    requires ReadsAs(p, q) && Bounded(p)
    ensures Offset(q) == if Sum(p) + |p| == MAX_INDEX + 1 then 0 else Sum(p) + |p|
  {
    assert Sum([]) == 0;
    hide Sent, After, Sum;
    if q != [] { AfterIs(q[|q| - 1]); }
  }

  lemma WordBack(q: seq<nat>, y: nat)
    requires y <= MAX_INDEX && (q != [] ==> q[|q| - 1] < y)
    ensures Word(Gap(q, y)) == if q == [] then y else y - q[|q| - 1] - 1
  {
    hide Word;
    WordIs(Gap(q, y));
  }

  /** A word more after words that were read as increasing indexes. */
  lemma ReadsMore(p: seq<nat>, q: seq<nat>, x: nat, y: nat)
    requires Received(p) == Some(q) && ReadsAs(p, q) && Bounded(p) && Bounded(p + [x]) && y == x + Offset(q)
    ensures y <= MAX_INDEX && ReadsAs(p + [x], q + [y]) && (q != [] ==> q[|q| - 1] < y)
  {
    assert Sum([]) == 0;
    SumMore(p, x);
    OffsetIs(p, q);
    hide Received, Sent, Word, Gap, Offset, Sum;
    WordBack(q, y);
    SentMore(q, y);
  }

  /** A word that takes the sum beyond the highest index does not fit, or follows the highest index. */
  lemma ReadsBeyond(p: seq<nat>, q: seq<nat>, x: nat)
    requires Received(p) == Some(q) && ReadsAs(p, q) && Bounded(p) && !Bounded(p + [x])
    ensures x + Offset(q) > MAX_INDEX || (q != [] && q[|q| - 1] == MAX_INDEX)
  {
    assert Sum([]) == 0;
    hide Received, Sent, Offset, Sum;
    SumMore(p, x);
    OffsetIs(p, q);
  }

  /** Read as increasing indexes or not, as the sum says. */
  predicate AsBounded(d: seq<nat>) {
    && (Received(d).Some? && Increasing(Received(d).value) <==> Bounded(d))
    && (Received(d).Some? && Bounded(d) ==> ReadsAs(d, Received(d).value))
  }

  lemma AsBoundedFits(p: seq<nat>, q: seq<nat>, x: nat, y: nat)
    requires AsBounded(p) && Received(p) == Some(q) && y == x + Offset(q) <= MAX_INDEX
    ensures AsBounded(p + [x])
  {
    SumMore(p, x);
    hide Received, Increasing, ReadsAs, Sum, Offset;
    ReceivedMore(p, q, x, y);
    IncreasingMore(q, y);
    if Bounded(p + [x]) {
      ReadsMore(p, q, x, y);
    } else if Bounded(p) {
      ReadsBeyond(p, q, x);
    }
  }

  lemma AsBoundedNot(p: seq<nat>, x: nat)
    requires AsBounded(p) && (Received(p).Some? ==> x + Offset(Received(p).value) > MAX_INDEX)
    ensures AsBounded(p + [x])
  {
    SumMore(p, x);
    hide Received, Increasing, ReadsAs, Sum, Offset;
    ReceivedNot(p, x);
    if Bounded(p + [x]) { ReadsMore(p, Received(p).value, x, x + Offset(Received(p).value)); }
  }

  lemma {:induction false} AllAsBounded(d: seq<nat>)
    ensures AsBounded(d)
  {
    if d == [] {
      NothingRead();
    } else {
      var p, x := d[..|d| - 1], d[|d| - 1];
      assert d == p + [x];
      AllAsBounded(p);
      if Received(p).None? || x + Offset(Received(p).value) > MAX_INDEX {
        AsBoundedNot(p, x);
      } else {
        AsBoundedFits(p, Received(p).value, x, x + Offset(Received(p).value));
      }
    }
  }

  /** Words are read as increasing indexes exactly when they do not add up beyond the highest index;
      then they are what those indexes were sent as. */
  lemma IncreasingIff(d: seq<nat>)
    ensures Received(d).Some? && Increasing(Received(d).value) <==> Sum(d) + |d| <= MAX_INDEX + 1
    ensures Sum(d) + |d| <= MAX_INDEX + 1 ==> Sent(Received(d).value) == d
  {
    AllAsBounded(d);
  }
}
