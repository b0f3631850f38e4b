/** Which files load as a consistent address manager, said of their records alone.

    A new record stays if some bucket takes a reference to it, a tried record if it is the first of its
    slot.  What is loaded is consistent exactly when no record that stays shares its address. */
module AddrManRecords {

  import opened Basics
  import opened AddrMan
  import opened AddrManDisk

  // ---------------------------------------------------------------- what stays

  /** The slot of a record by its source. */
  function OwnSlot(h: Hashes, s: Stored): Slot { NewSlot(h, s.service, s.source) }

  predicate FirstNew(h: Hashes, news: seq<Stored>, i: nat)
    requires i < |news|
  {
    forall j :: 0 <= j < i ==> OwnSlot(h, news[j]) != OwnSlot(h, news[i])
  }

  predicate FirstTried(h: Hashes, trieds: seq<Stored>, i: nat)
    requires i < |trieds|
  {
    forall j :: 0 <= j < i ==> TriedSlot(h, trieds[j].service) != TriedSlot(h, trieds[i].service)
  }

  /** The references a record has from the first b buckets. */
  ghost function Held(h: Hashes, news: seq<Stored>, buckets: seq<seq<int>>, i: nat, b: nat): nat
    requires i < |news| && b <= |buckets|
    decreases b, 0
  {
    if b == 0 then 0
    else Held(h, news, buckets, i, b - 1) + if Takes(h, news, buckets, b - 1, |buckets[b - 1]|, i) then 1 else 0
  }

  /** A number in a bucket that stands for a record with fewer than eight references so far. */
  ghost predicate Open(h: Hashes, news: seq<Stored>, buckets: seq<seq<int>>, b: nat, x: int)
    requires b <= |buckets|
    decreases b, 1
  {
    0 <= x < |news| && Held(h, news, buckets, x, b) < MAX_REFERENCES
  }

  function SlotIn(h: Hashes, news: seq<Stored>, b: nat, x: int): Slot
    requires 0 <= x < |news|
  {
    NewSlotIn(h, news[x].service, b)
  }

  /** Number j of a bucket is open and the first such of its slot. */
  ghost predicate FirstOpen(h: Hashes, news: seq<Stored>, buckets: seq<seq<int>>, b: nat, j: nat)
    requires b < |buckets| && j < |buckets[b]|
    decreases b, 2
  {
    && Open(h, news, buckets, b, buckets[b][j])
    && forall e :: 0 <= e < j && Open(h, news, buckets, b, buckets[b][e]) ==> SlotIn(h, news, b, buckets[b][e]) != SlotIn(h, news, b, buckets[b][j])
  }

  /** Among its first k numbers a bucket takes a reference to record i. */
  ghost predicate Takes(h: Hashes, news: seq<Stored>, buckets: seq<seq<int>>, b: nat, k: nat, i: nat)
    requires b < |buckets| && k <= |buckets[b]| && i < |news|
    decreases b, 3
  {
    exists j :: 0 <= j < k && buckets[b][j] == i && FirstOpen(h, news, buckets, b, j)
  }

  /** A new record that ends up with a reference. */
  ghost predicate Referred(h: Hashes, d: Disk, i: nat)
    requires Formed(d) && i < |d.news|
  {
    if Usable(d) then Held(h, d.news, d.buckets, i, NEW_BUCKETS) > 0 else FirstNew(h, d.news, i)
  }

  /** No record that stays shares its address: neither a new one that is referred to with another new one,
      nor a tried one that is first of its slot with a new one or another such. */
  ghost predicate Clear(h: Hashes, d: Disk)
    requires Formed(d)
  {
    && (forall i, j :: 0 <= i < |d.news| && 0 <= j < |d.news| && i != j && d.news[i].service.ip == d.news[j].service.ip ==> !Referred(h, d, i))
    && (forall i, j :: 0 <= i < |d.news| && 0 <= j < |d.trieds| && FirstTried(h, d.trieds, j) ==> d.news[i].service.ip != d.trieds[j].service.ip)
    && forall i, j :: 0 <= i < j < |d.trieds| && FirstTried(h, d.trieds, i) && FirstTried(h, d.trieds, j) ==>
      d.trieds[i].service.ip != d.trieds[j].service.ip
  }

  // ---------------------------------------------------------------- new records

  /** An entry has what its record holds, and no tries of its own. */
  predicate Carries(i: Info, s: Stored) {
    && i.service == s.service && i.source == s.source && i.services == s.services && i.time == s.time
    && i.lastSuccess == s.lastSuccess && i.attempts == s.attempts && i.lastTry == 0 && i.lastCountAttempt == 0
  }

  ghost predicate IsNew(info: map<int, Info>, s: Stored, i: int, refs: int) {
    i in info && Carries(info[i], s) && !info[i].inTried && info[i].refs == refs
  }

  function RefsBySource(h: Hashes, news: seq<Stored>, i: nat, usable: bool): nat
    requires i < |news|
  {
    if !usable && FirstNew(h, news, i) then 1 else 0
  }

  ghost predicate OwnTaken(h: Hashes, news: seq<Stored>, k: nat, s: Slot)
    requires k <= |news|
  {
    exists j :: 0 <= j < k && OwnSlot(h, news[j]) == s
  }

  /** The first k new records are entries 0 to k - 1. */
  ghost predicate NewsAre(h: Hashes, st: State, news: seq<Stored>, k: nat, usable: bool) {
    && k <= |news| && st.idCount == k && st.triedTable == map[]
    && (forall id :: id in st.info ==> 0 <= id < k)
    && (forall i :: 0 <= i < k ==> IsNew(st.info, news[i], i, RefsBySource(h, news, i, usable)))
    && (usable ==> st.newTable == map[])
    && (!usable ==> forall s :: s in st.newTable <==> OwnTaken(h, news, k, s))
  }

  lemma OwnTakenNext(h: Hashes, news: seq<Stored>, k: nat, s: Slot)
    requires k < |news|
    ensures OwnTaken(h, news, k + 1, s) <==> OwnTaken(h, news, k, s) || s == OwnSlot(h, news[k])
    ensures FirstNew(h, news, k) <==> !OwnTaken(h, news, k, OwnSlot(h, news[k]))
  {
    hide OwnSlot;
    if s == OwnSlot(h, news[k]) { assert OwnTaken(h, news, k + 1, s); }
  }

  /** What entering one more new record changes. */
  ghost predicate NewEntered(st: State, s: Stored, slot: Slot, taken: bool, w: State) {
    && w.idCount == st.idCount + 1 && w.triedTable == st.triedTable
    && w.newTable == (if taken then st.newTable[slot := st.idCount] else st.newTable)
    && w.info.Keys == st.info.Keys + {st.idCount} && IsNew(w.info, s, st.idCount, if taken then 1 else 0)
    && forall id :: id in st.info && id != st.idCount ==> id in w.info && w.info[id] == st.info[id]
  }

  lemma LoadNewIs(h: Hashes, st: State, s: Stored, usable: bool)
    ensures NewEntered(st, s, OwnSlot(h, s), !usable && OwnSlot(h, s) !in st.newTable, LoadNew(h, st, s, usable))
  {
    hide NewSlot;
  }

  lemma NewsMore(h: Hashes, st: State, news: seq<Stored>, k: nat, usable: bool, w: State)
    requires NewsAre(h, st, news, k, usable) && k < |news|
    requires NewEntered(st, news[k], OwnSlot(h, news[k]), !usable && FirstNew(h, news, k), w)
    ensures NewsAre(h, w, news, k + 1, usable)
  {
    hide OwnSlot, OwnTaken, FirstNew;
    if !usable {
      forall s ensures s in w.newTable <==> OwnTaken(h, news, k + 1, s) { OwnTakenNext(h, news, k, s); }
    }
  }

  lemma NewsNextAre(h: Hashes, st: State, news: seq<Stored>, k: nat, usable: bool)
    requires NewsAre(h, st, news, k, usable) && k < |news|
    ensures NewsAre(h, LoadNew(h, st, news[k], usable), news, k + 1, usable)
  {
    hide OwnSlot, OwnTaken, FirstNew, LoadNew, NewEntered, IsNew, RefsBySource;
    LoadNewIs(h, st, news[k], usable);
    OwnTakenNext(h, news, k, OwnSlot(h, news[k]));
    NewsMore(h, st, news, k, usable, LoadNew(h, st, news[k], usable));
  }

  lemma NoNewsAre(h: Hashes, news: seq<Stored>, usable: bool)
    ensures NewsAre(h, Empty(), news, 0, usable)
  {
  }

  lemma {:induction false} NewsLoadedAre(h: Hashes, news: seq<Stored>, k: nat, usable: bool)
    requires k <= |news|
    ensures NewsAre(h, LoadNews(h, news, k, usable), news, k, usable)
  {
    hide NewsAre, LoadNew;
    if k == 0 {
      NoNewsAre(h, news, usable);
    } else {
      NewsLoadedAre(h, news, k - 1, usable);
      NewsNextAre(h, LoadNews(h, news, k - 1, usable), news, k - 1, usable);
    }
  }

  // ---------------------------------------------------------------- tried records

  /** How many of the first k tried records are first of their slot. */
  function Firsts(h: Hashes, trieds: seq<Stored>, k: nat): nat
    requires k <= |trieds|
  {
    if k == 0 then 0 else Firsts(h, trieds, k - 1) + if FirstTried(h, trieds, k - 1) then 1 else 0
  }

  lemma {:induction false} FirstsGrow(h: Hashes, trieds: seq<Stored>, i: nat, k: nat)
    requires i < k <= |trieds| && FirstTried(h, trieds, i)
    ensures Firsts(h, trieds, i) < Firsts(h, trieds, k)
  {
    hide FirstTried;
    if i < k - 1 { FirstsGrow(h, trieds, i, k - 1); }
  }

  ghost predicate TriedTaken(h: Hashes, trieds: seq<Stored>, k: nat, s: Slot)
    requires k <= |trieds|
  {
    exists j :: 0 <= j < k && TriedSlot(h, trieds[j].service) == s
  }

  /** Entry id is that of tried record t. */
  ghost predicate IsTried(h: Hashes, info: map<int, Info>, trieds: seq<Stored>, n: nat, t: nat)
    requires t < |trieds|
  {
    var id := n + Firsts(h, trieds, t);
    id in info && Carries(info[id], trieds[t]) && info[id].inTried
  }

  ghost predicate FromTried(h: Hashes, trieds: seq<Stored>, n: nat, k: nat, id: int)
    requires k <= |trieds|
  {
    exists t :: 0 <= t < k && FirstTried(h, trieds, t) && id == n + Firsts(h, trieds, t)
  }

  ghost predicate SameBelow(a: map<int, Info>, info: map<int, Info>, n: nat) {
    forall id :: id < n ==> (id in info <==> id in a) && (id in a && id in info ==> info[id] == a[id])
  }

  /** Of the first k tried records those first of their slot follow the n new ones, in order. */
  ghost predicate TriedsAre(h: Hashes, a: State, st: State, trieds: seq<Stored>, n: nat, k: nat) {
    && k <= |trieds| && st.idCount == n + Firsts(h, trieds, k) && st.newTable == a.newTable && SameBelow(a.info, st.info, n)
    && (forall s :: s in st.triedTable <==> TriedTaken(h, trieds, k, s))
    && (forall t :: 0 <= t < k && FirstTried(h, trieds, t) ==> IsTried(h, st.info, trieds, n, t))
    && (forall id :: id in st.info && id >= n ==> FromTried(h, trieds, n, k, id))
  }

  lemma TriedTakenNext(h: Hashes, trieds: seq<Stored>, k: nat, s: Slot)
    requires k < |trieds|
    ensures TriedTaken(h, trieds, k + 1, s) <==> TriedTaken(h, trieds, k, s) || s == TriedSlot(h, trieds[k].service)
    ensures FirstTried(h, trieds, k) <==> !TriedTaken(h, trieds, k, TriedSlot(h, trieds[k].service))
  {
    hide TriedSlot;
    if s == TriedSlot(h, trieds[k].service) { assert TriedTaken(h, trieds, k + 1, s); }
  }

  lemma FromTriedNext(h: Hashes, trieds: seq<Stored>, n: nat, k: nat, id: int)
    requires k < |trieds|
    ensures FromTried(h, trieds, n, k + 1, id) <==> FromTried(h, trieds, n, k, id) || (FirstTried(h, trieds, k) && id == n + Firsts(h, trieds, k))
  {
    hide FirstTried, Firsts;
    if FirstTried(h, trieds, k) && id == n + Firsts(h, trieds, k) { assert FromTried(h, trieds, n, k + 1, id); }
  }

  lemma TriedsSame(h: Hashes, a: State, st: State, trieds: seq<Stored>, n: nat, k: nat)
    requires TriedsAre(h, a, st, trieds, n, k) && k < |trieds| && !FirstTried(h, trieds, k) && Firsts(h, trieds, k + 1) == Firsts(h, trieds, k)
    ensures TriedsAre(h, a, st, trieds, n, k + 1)
  {
    hide TriedTaken, FirstTried, TriedSlot, Firsts, FromTried, IsTried;
    TriedTakenNext(h, trieds, k, TriedSlot(h, trieds[k].service));
    forall s ensures s in st.triedTable <==> TriedTaken(h, trieds, k + 1, s) { TriedTakenNext(h, trieds, k, s); }
    forall id | id in st.info && id >= n ensures FromTried(h, trieds, n, k + 1, id) { FromTriedNext(h, trieds, n, k, id); }
  }

  /** A tried record that finds its slot taken. */
  lemma TriedLost(h: Hashes, a: State, st: State, trieds: seq<Stored>, n: nat, k: nat)
    requires TriedsAre(h, a, st, trieds, n, k) && k < |trieds| && !FirstTried(h, trieds, k)
    ensures LoadTried(h, st, trieds[k]) == st && TriedsAre(h, a, st, trieds, n, k + 1)
  {
    assert Firsts(h, trieds, k + 1) == Firsts(h, trieds, k);
    hide TriedTaken, FirstTried, FromTried, IsTried, Firsts, TriedSlot;
    TriedTakenNext(h, trieds, k, TriedSlot(h, trieds[k].service));
    assert LoadTried(h, st, trieds[k]) == st;
    hide *;
    TriedsSame(h, a, st, trieds, n, k);
  }

  /** A tried record that finds its slot free. */
  ghost predicate EntersAs(h: Hashes, st: State, s: Stored, w: State) {
    && w.idCount == st.idCount + 1 && w.newTable == st.newTable && w.triedTable == st.triedTable[TriedSlot(h, s.service) := st.idCount]
    && w.info == st.info[st.idCount := Restored(s, true, |st.random|)]
  }

  lemma TriedInfo(h: Hashes, st: State, w: State, trieds: seq<Stored>, n: nat, k: nat, s: Stored)
    requires k < |trieds| && s == trieds[k] && FirstTried(h, trieds, k) && EntersAs(h, st, s, w) && st.idCount == n + Firsts(h, trieds, k)
    requires forall t :: 0 <= t < k && FirstTried(h, trieds, t) ==> IsTried(h, st.info, trieds, n, t)
    ensures forall t :: 0 <= t < k + 1 && FirstTried(h, trieds, t) ==> IsTried(h, w.info, trieds, n, t)
  {
    hide TriedSlot, Firsts, FirstTried;
    forall t | 0 <= t < k + 1 && FirstTried(h, trieds, t) ensures IsTried(h, w.info, trieds, n, t) {
      if t < k {
        assert IsTried(h, st.info, trieds, n, t);
        FirstsGrow(h, trieds, t, k);
      }
    }
  }

  lemma TriedsMore(h: Hashes, a: State, st: State, trieds: seq<Stored>, n: nat, k: nat, w: State)
    requires TriedsAre(h, a, st, trieds, n, k) && k < |trieds| && FirstTried(h, trieds, k) && EntersAs(h, st, trieds[k], w)
    requires Firsts(h, trieds, k + 1) == Firsts(h, trieds, k) + 1
    ensures TriedsAre(h, a, w, trieds, n, k + 1)
  {
    hide Restored, TriedTaken, FirstTried, TriedSlot, Firsts, FromTried, IsTried;
    TriedInfo(h, st, w, trieds, n, k, trieds[k]);
    forall s ensures s in w.triedTable <==> TriedTaken(h, trieds, k + 1, s) { TriedTakenNext(h, trieds, k, s); }
    forall id | id in w.info && id >= n ensures FromTried(h, trieds, n, k + 1, id) { FromTriedNext(h, trieds, n, k, id); }
  }

  lemma TriedEnters(h: Hashes, a: State, st: State, trieds: seq<Stored>, n: nat, k: nat)
    requires TriedsAre(h, a, st, trieds, n, k) && k < |trieds| && FirstTried(h, trieds, k)
    ensures TriedsAre(h, a, LoadTried(h, st, trieds[k]), trieds, n, k + 1)
  {
    assert Firsts(h, trieds, k + 1) == Firsts(h, trieds, k) + 1;
    hide TriedTaken, FirstTried, FromTried, IsTried, Firsts, TriedSlot;
    TriedTakenNext(h, trieds, k, TriedSlot(h, trieds[k].service));
    assert EntersAs(h, st, trieds[k], LoadTried(h, st, trieds[k]));
    hide *;
    TriedsMore(h, a, st, trieds, n, k, LoadTried(h, st, trieds[k]));
  }

  lemma NoTriedsAre(h: Hashes, a: State, trieds: seq<Stored>, n: nat)
    requires a.triedTable == map[] && a.idCount == n && forall id :: id in a.info ==> id < n
    ensures TriedsAre(h, a, a, trieds, n, 0)
  {
  }

  lemma {:induction false} TriedsLoadedAre(h: Hashes, a: State, trieds: seq<Stored>, n: nat, k: nat)
    requires k <= |trieds| && a.triedTable == map[] && a.idCount == n && forall id :: id in a.info ==> id < n
    ensures TriedsAre(h, a, LoadTrieds(h, a, trieds, k), trieds, n, k)
  {
    hide TriedsAre, LoadTried, FirstTried;
    if k == 0 {
      NoTriedsAre(h, a, trieds, n);
    } else {
      TriedsLoadedAre(h, a, trieds, n, k - 1);
      var st := LoadTrieds(h, a, trieds, k - 1);
      if FirstTried(h, trieds, k - 1) {
        TriedEnters(h, a, st, trieds, n, k - 1);
      } else {
        TriedLost(h, a, st, trieds, n, k - 1);
      }
    }
  }

  // ---------------------------------------------------------------- references

  /** A slot of bucket b that one of its first k numbers has taken. */
  ghost predicate Occupied(h: Hashes, news: seq<Stored>, buckets: seq<seq<int>>, b: nat, k: nat, s: Slot)
    requires b < |buckets| && k <= |buckets[b]|
  {
    exists j :: 0 <= j < k && Open(h, news, buckets, b, buckets[b][j]) && SlotIn(h, news, b, buckets[b][j]) == s
  }

  lemma OccupiedNext(h: Hashes, news: seq<Stored>, buckets: seq<seq<int>>, b: nat, k: nat, s: Slot)
    requires b < |buckets| && k < |buckets[b]|
    ensures Occupied(h, news, buckets, b, k + 1, s) <==>
      Occupied(h, news, buckets, b, k, s) || (Open(h, news, buckets, b, buckets[b][k]) && SlotIn(h, news, b, buckets[b][k]) == s)
  {
    hide Held, SlotIn;
    if Open(h, news, buckets, b, buckets[b][k]) && SlotIn(h, news, b, buckets[b][k]) == s {
      assert Occupied(h, news, buckets, b, k + 1, s);
    }
  }

  lemma FirstOpenIs(h: Hashes, news: seq<Stored>, buckets: seq<seq<int>>, b: nat, k: nat)
    requires b < |buckets| && k < |buckets[b]|
    ensures FirstOpen(h, news, buckets, b, k) <==>
      Open(h, news, buckets, b, buckets[b][k]) && !Occupied(h, news, buckets, b, k, SlotIn(h, news, b, buckets[b][k]))
  {
    hide SlotIn;
  }

  lemma TakesNext(h: Hashes, news: seq<Stored>, buckets: seq<seq<int>>, b: nat, k: nat, i: nat)
    requires b < |buckets| && k < |buckets[b]| && i < |news|
    ensures Takes(h, news, buckets, b, k + 1, i) <==> Takes(h, news, buckets, b, k, i) || (buckets[b][k] == i && FirstOpen(h, news, buckets, b, k))
  {
    hide FirstOpen;
    if buckets[b][k] == i && FirstOpen(h, news, buckets, b, k) { assert Takes(h, news, buckets, b, k + 1, i); }
  }

  /** Once a bucket takes a reference to a record, the record's slot is occupied. */
  lemma TakesOccupied(h: Hashes, news: seq<Stored>, buckets: seq<seq<int>>, b: nat, k: nat, i: nat)
    requires b < |buckets| && k <= |buckets[b]| && i < |news| && Takes(h, news, buckets, b, k, i)
    ensures Occupied(h, news, buckets, b, k, SlotIn(h, news, b, i))
  {
    hide SlotIn, Held;
    var j :| 0 <= j < k && buckets[b][j] == i && FirstOpen(h, news, buckets, b, j);
  }

  /** Only the numbers of references differ. */
  ghost predicate ButRefs(a: map<int, Info>, info: map<int, Info>) {
    a.Keys == info.Keys && forall id :: id in a && id in info ==> info[id] == a[id].(refs := info[id].refs)
  }

  ghost predicate NewsIn(info: map<int, Info>, news: seq<Stored>) {
    forall i :: 0 <= i < |news| ==> i in info && info[i].service == news[i].service
  }

  function HeldSoFar(held: nat, takes: bool): nat { if takes then held + 1 else held }

  ghost predicate RefsAre(h: Hashes, info: map<int, Info>, news: seq<Stored>, buckets: seq<seq<int>>, b: nat, k: nat, i: nat)
    requires b < |buckets| && k <= |buckets[b]| && i < |news|
  {
    i in info && info[i].refs == HeldSoFar(Held(h, news, buckets, i, b), Takes(h, news, buckets, b, k, i))
  }

  ghost predicate SlotsAre(h: Hashes, t: Table, news: seq<Stored>, buckets: seq<seq<int>>, b: nat, k: nat)
    requires b < |buckets| && k <= |buckets[b]|
  {
    && (forall s :: s in t ==> s.bucket <= b)
    && forall s: Slot :: s.bucket == b ==> (s in t <==> Occupied(h, news, buckets, b, k, s))
  }

  /** After all buckets before b and the first k numbers of bucket b. */
  ghost predicate RowIs(h: Hashes, a: State, st: State, news: seq<Stored>, buckets: seq<seq<int>>, b: nat, k: nat)
    requires b < |buckets| && k <= |buckets[b]|
  {
    && ButRefs(a.info, st.info) && NewsIn(st.info, news) && SlotsAre(h, st.newTable, news, buckets, b, k)
    && forall i :: 0 <= i < |news| ==> RefsAre(h, st.info, news, buckets, b, k, i)
  }

  /** The next number is refused. */
  lemma RefRefused(h: Hashes, a: State, st: State, news: seq<Stored>, buckets: seq<seq<int>>, b: nat, k: nat)
    requires b < |buckets| && k < |buckets[b]| && RowIs(h, a, st, news, buckets, b, k) && !FirstOpen(h, news, buckets, b, k)
    ensures LoadRef(h, st, |news|, b, buckets[b][k]) == st && RowIs(h, a, st, news, buckets, b, k + 1)
  {
    var x := buckets[b][k];
    FirstOpenIs(h, news, buckets, b, k);
    if 0 <= x < |news| {
      assert RefsAre(h, st.info, news, buckets, b, k, x);
      if Takes(h, news, buckets, b, k, x) { TakesOccupied(h, news, buckets, b, k, x); }
      assert SlotIn(h, news, b, x).bucket == b;
    }
    forall s ensures Occupied(h, news, buckets, b, k + 1, s) <==> Occupied(h, news, buckets, b, k, s) { OccupiedNext(h, news, buckets, b, k, s); }
    var next := k + 1;
    forall i | 0 <= i < |news| ensures RefsAre(h, st.info, news, buckets, b, next, i) {
      assert RefsAre(h, st.info, news, buckets, b, k, i);
      TakesNext(h, news, buckets, b, k, i);
    }
  }

  /** The next number is taken. */
  lemma RefTaken(h: Hashes, a: State, st: State, news: seq<Stored>, buckets: seq<seq<int>>, b: nat, k: nat)
    requires b < |buckets| && k < |buckets[b]| && RowIs(h, a, st, news, buckets, b, k) && FirstOpen(h, news, buckets, b, k)
    ensures RowIs(h, a, LoadRef(h, st, |news|, b, buckets[b][k]), news, buckets, b, k + 1)
  {
    var x := buckets[b][k];
    FirstOpenIs(h, news, buckets, b, k);
    assert RefsAre(h, st.info, news, buckets, b, k, x);
    if Takes(h, news, buckets, b, k, x) { TakesOccupied(h, news, buckets, b, k, x); }
    assert SlotIn(h, news, b, x).bucket == b;
    var w := LoadRef(h, st, |news|, b, x);
    assert w == AddRef(st, SlotIn(h, news, b, x), x);
    forall s: Slot | s.bucket == b ensures s in w.newTable <==> Occupied(h, news, buckets, b, k + 1, s) { OccupiedNext(h, news, buckets, b, k, s); }
    var next := k + 1;
    forall i | 0 <= i < |news| ensures RefsAre(h, w.info, news, buckets, b, next, i) {
      assert RefsAre(h, st.info, news, buckets, b, k, i);
      TakesNext(h, news, buckets, b, k, i);
    }
  }

  lemma {:induction false} RowLoadedIs(h: Hashes, a: State, st: State, news: seq<Stored>, buckets: seq<seq<int>>, b: nat, k: nat)
    requires b < |buckets| && k <= |buckets[b]| && RowIs(h, a, st, news, buckets, b, 0)
    ensures RowIs(h, a, LoadRefs(h, st, |news|, b, buckets[b][..k]), news, buckets, b, k)
  {
    hide RowIs, LoadRef, FirstOpen;
    if k > 0 {
      RowLoadedIs(h, a, st, news, buckets, b, k - 1);
      assert buckets[b][..k][..k - 1] == buckets[b][..k - 1];
      var w := LoadRefs(h, st, |news|, b, buckets[b][..k - 1]);
      if FirstOpen(h, news, buckets, b, k - 1) {
        RefTaken(h, a, w, news, buckets, b, k - 1);
      } else {
        RefRefused(h, a, w, news, buckets, b, k - 1);
      }
    }
  }

  /** After the first b buckets. */
  ghost predicate BucketsAre(h: Hashes, a: State, st: State, news: seq<Stored>, buckets: seq<seq<int>>, b: nat) {
    && b <= |buckets| && ButRefs(a.info, st.info) && NewsIn(st.info, news)
    && (forall s :: s in st.newTable ==> s.bucket < b)
    && forall i :: 0 <= i < |news| ==> i in st.info && st.info[i].refs == Held(h, news, buckets, i, b)
  }

  lemma RowStarts(h: Hashes, a: State, st: State, news: seq<Stored>, buckets: seq<seq<int>>, b: nat)
    requires BucketsAre(h, a, st, news, buckets, b) && b < |buckets|
    ensures RowIs(h, a, st, news, buckets, b, 0)
  {
    hide Held, FirstOpen, Open;
  }

  lemma RowEnds(h: Hashes, a: State, st: State, news: seq<Stored>, buckets: seq<seq<int>>, b: nat)
    requires b < |buckets| && RowIs(h, a, st, news, buckets, b, |buckets[b]|)
    ensures BucketsAre(h, a, st, news, buckets, b + 1)
  {
    hide Takes, Occupied;
    forall i | 0 <= i < |news| ensures i in st.info && st.info[i].refs == Held(h, news, buckets, i, b + 1) {
      assert RefsAre(h, st.info, news, buckets, b, |buckets[b]|, i);
    }
  }

  lemma {:induction false} BucketsLoadedAre(h: Hashes, a: State, news: seq<Stored>, buckets: seq<seq<int>>, b: nat)
    requires b <= |buckets| && BucketsAre(h, a, a, news, buckets, 0)
    ensures BucketsAre(h, a, LoadBuckets(h, a, |news|, buckets, b), news, buckets, b)
  {
    hide BucketsAre, RowIs, LoadRefs;
    if b > 0 {
      BucketsLoadedAre(h, a, news, buckets, b - 1);
      var st := LoadBuckets(h, a, |news|, buckets, b - 1);
      RowStarts(h, a, st, news, buckets, b - 1);
      RowLoadedIs(h, a, st, news, buckets, b - 1, |buckets[b - 1]|);
      assert buckets[b - 1][..|buckets[b - 1]|] == buckets[b - 1];
      RowEnds(h, a, LoadRefs(h, st, |news|, b - 1, buckets[b - 1]), news, buckets, b - 1);
    }
  }

  // ---------------------------------------------------------------- the whole file

  /** A new record is an entry that has a reference exactly when it is referred to. */
  ghost predicate NewIs(h: Hashes, d: Disk, info: map<int, Info>, i: nat)
    requires Formed(d) && i < |d.news|
  {
    && i in info && Carries(info[i], d.news[i]) && !info[i].inTried
    && (info[i].refs == 0 <==> !Referred(h, d, i))
  }

  /** What the records have become. */
  ghost predicate RecordsAre(h: Hashes, d: Disk, info: map<int, Info>)
    requires Formed(d)
  {
    var n, trieds := |d.news|, d.trieds;
    && (forall i :: 0 <= i < n ==> NewIs(h, d, info, i))
    && (forall t :: 0 <= t < |trieds| && FirstTried(h, trieds, t) ==> IsTried(h, info, trieds, n, t))
    && (forall id :: id in info ==> 0 <= id && (id >= n ==> FromTried(h, trieds, n, |trieds|, id)))
  }

  lemma EntriesAre(h: Hashes, d: Disk, a: State, b: State)
    requires Formed(d) && NewsAre(h, a, d.news, |d.news|, Usable(d)) && TriedsAre(h, a, b, d.trieds, |d.news|, |d.trieds|)
    ensures forall i :: 0 <= i < |d.news| ==> IsNew(b.info, d.news[i], i, RefsBySource(h, d.news, i, Usable(d)))
    ensures forall t :: 0 <= t < |d.trieds| && FirstTried(h, d.trieds, t) ==> IsTried(h, b.info, d.trieds, |d.news|, t)
    ensures forall id :: id in b.info ==> 0 <= id && (id >= |d.news| ==> FromTried(h, d.trieds, |d.news|, |d.trieds|, id))
    ensures Usable(d) ==> b.newTable == map[]
  {
    hide FirstTried, FromTried, TriedTaken, OwnTaken, Firsts, RefsBySource, Usable;
    var n := |d.news|;
    forall i | 0 <= i < n ensures IsNew(b.info, d.news[i], i, RefsBySource(h, d.news, i, Usable(d))) {
      assert IsNew(a.info, d.news[i], i, RefsBySource(h, d.news, i, Usable(d)));
    }
  }

  lemma OtherRecordsAre(h: Hashes, d: Disk, b: State)
    requires Formed(d) && !Usable(d)
    requires forall i :: 0 <= i < |d.news| ==> IsNew(b.info, d.news[i], i, RefsBySource(h, d.news, i, false))
    requires forall t :: 0 <= t < |d.trieds| && FirstTried(h, d.trieds, t) ==> IsTried(h, b.info, d.trieds, |d.news|, t)
    requires forall id :: id in b.info ==> 0 <= id && (id >= |d.news| ==> FromTried(h, d.trieds, |d.news|, |d.trieds|, id))
    ensures RecordsAre(h, d, b.info)
  {
    hide FirstTried, FromTried, FirstNew, Firsts;
    forall i | 0 <= i < |d.news| ensures NewIs(h, d, b.info, i) {
      assert IsNew(b.info, d.news[i], i, RefsBySource(h, d.news, i, false));
    }
  }

  lemma UsableRecordsAre(h: Hashes, d: Disk, b: State, w: State)
    requires Formed(d) && Usable(d) && BucketsAre(h, b, w, d.news, d.buckets, NEW_BUCKETS)
    requires forall i :: 0 <= i < |d.news| ==> IsNew(b.info, d.news[i], i, RefsBySource(h, d.news, i, true))
    requires forall t :: 0 <= t < |d.trieds| && FirstTried(h, d.trieds, t) ==> IsTried(h, b.info, d.trieds, |d.news|, t)
    requires forall id :: id in b.info ==> 0 <= id && (id >= |d.news| ==> FromTried(h, d.trieds, |d.news|, |d.trieds|, id))
    ensures RecordsAre(h, d, w.info)
  {
    hide FirstTried, FromTried, Firsts, Held, RefsBySource;
    forall i | 0 <= i < |d.news| ensures NewIs(h, d, w.info, i) {
      assert IsNew(b.info, d.news[i], i, RefsBySource(h, d.news, i, true));
    }
    forall t | 0 <= t < |d.trieds| && FirstTried(h, d.trieds, t) ensures IsTried(h, w.info, d.trieds, |d.news|, t) {
      assert IsTried(h, b.info, d.trieds, |d.news|, t);
    }
  }

  lemma NoBucketsAre(h: Hashes, d: Disk, b: State)
    requires b.newTable == map[] && forall i :: 0 <= i < |d.news| ==> IsNew(b.info, d.news[i], i, RefsBySource(h, d.news, i, true))
    ensures BucketsAre(h, b, b, d.news, d.buckets, 0)
  {
    forall i | 0 <= i < |d.news| ensures i in b.info && b.info[i].service == d.news[i].service && b.info[i].refs == 0 {
      assert IsNew(b.info, d.news[i], i, RefsBySource(h, d.news, i, true));
    }
  }

  lemma FilledRecordsAre(h: Hashes, d: Disk)
    requires Formed(d)
    ensures RecordsAre(h, d, Filled(h, d).info)
  {
    var n, u := |d.news|, Usable(d);
    var a := LoadNews(h, d.news, n, u);
    NewsLoadedAre(h, d.news, n, u);
    assert a.triedTable == map[] && a.idCount == n && forall id :: id in a.info ==> id < n;
    var b := LoadTrieds(h, a, d.trieds, |d.trieds|);
    hide NewsAre, TriedsAre, BucketsAre, IsNew, IsTried, FirstTried, FromTried, RecordsAre, LoadNews, LoadTrieds, LoadBuckets, RefsBySource;
    TriedsLoadedAre(h, a, d.trieds, n, |d.trieds|);
    EntriesAre(h, d, a, b);
    if u {
      NoBucketsAre(h, d, b);
      BucketsLoadedAre(h, b, d.news, d.buckets, NEW_BUCKETS);
      UsableRecordsAre(h, d, b, LoadBuckets(h, b, n, d.buckets, NEW_BUCKETS));
    } else {
      OtherRecordsAre(h, d, b);
    }
  }

  // ---------------------------------------------------------------- the condition

  lemma TriedOf(h: Hashes, d: Disk, info: map<int, Info>, id: int) returns (t: nat)
    requires Formed(d) && RecordsAre(h, d, info) && id in info && id >= |d.news|
    ensures t < |d.trieds| && FirstTried(h, d.trieds, t) && id == |d.news| + Firsts(h, d.trieds, t)
    ensures info[id].service == d.trieds[t].service && info[id].inTried
  {
    hide RecordsAre, FirstTried, Firsts, Formed;
    FromOf(h, d, info, id);
    t :| 0 <= t < |d.trieds| && FirstTried(h, d.trieds, t) && id == |d.news| + Firsts(h, d.trieds, t);
    TriedAt(h, d, info, t);
  }

  lemma FromOf(h: Hashes, d: Disk, info: map<int, Info>, id: int)
    requires Formed(d) && RecordsAre(h, d, info) && id in info && id >= |d.news|
    ensures FromTried(h, d.trieds, |d.news|, |d.trieds|, id)
  {
    hide FirstTried, Firsts, NewIs, FromTried, IsTried;
  }

  lemma TriedAt(h: Hashes, d: Disk, info: map<int, Info>, t: nat)
    requires Formed(d) && RecordsAre(h, d, info) && t < |d.trieds| && FirstTried(h, d.trieds, t)
    ensures IsTried(h, info, d.trieds, |d.news|, t)
  {
    hide FirstTried, Firsts, NewIs, FromTried, IsTried;
  }

  lemma NewOf(h: Hashes, d: Disk, info: map<int, Info>, id: int)
    requires Formed(d) && RecordsAre(h, d, info) && id in info && id < |d.news|
    ensures 0 <= id && NewIs(h, d, info, id)
  {
    hide FirstTried, Firsts, NewIs;
  }

  /** Entries that share an address. */
  lemma ClearPair(h: Hashes, d: Disk, info: map<int, Info>, i: int, j: int)
    requires Formed(d) && RecordsAre(h, d, info) && Clear(h, d)
    requires i in info && j in info && i != j && info[i].service.ip == info[j].service.ip
    ensures i in Loose(info)
  {
    var n := |d.news|;
    hide RecordsAre, Referred, FirstTried, Firsts;
    if i < n {
      NewOf(h, d, info, i);
      if j < n {
        NewOf(h, d, info, j);
      } else {
        var u := TriedOf(h, d, info, j);
        assert false;
      }
    } else {
      var t := TriedOf(h, d, info, i);
      if j < n {
        NewOf(h, d, info, j);
        assert false;
      } else {
        var u := TriedOf(h, d, info, j);
        assert false;
      }
    }
  }

  lemma ClearNoClash(h: Hashes, d: Disk, info: map<int, Info>)
    requires Formed(d) && RecordsAre(h, d, info) && Clear(h, d)
    ensures NoClash(info)
  {
    hide RecordsAre, Clear;
    forall i, j | i in info && j in info && i != j && info[i].service.ip == info[j].service.ip ensures i in Loose(info) {
      ClearPair(h, d, info, i, j);
    }
  }

  lemma NoClashClear(h: Hashes, d: Disk, info: map<int, Info>)
    requires Formed(d) && RecordsAre(h, d, info) && NoClash(info)
    ensures Clear(h, d)
  {
    var n, news, trieds := |d.news|, d.news, d.trieds;
    hide Referred, FirstTried, Firsts, FromTried;
    forall i, j | 0 <= i < n && 0 <= j < n && i != j && news[i].service.ip == news[j].service.ip ensures !Referred(h, d, i) {
      assert NewIs(h, d, info, i) && NewIs(h, d, info, j);
      assert i in Loose(info);
    }
    forall i, j | 0 <= i < n && 0 <= j < |trieds| && FirstTried(h, trieds, j) ensures news[i].service.ip != trieds[j].service.ip {
      assert NewIs(h, d, info, i) && IsTried(h, info, trieds, n, j);
      assert n + Firsts(h, trieds, j) !in Loose(info);
    }
    forall i, j | 0 <= i < j < |trieds| && FirstTried(h, trieds, i) && FirstTried(h, trieds, j) ensures trieds[i].service.ip != trieds[j].service.ip {
      assert IsTried(h, info, trieds, n, i) && IsTried(h, info, trieds, n, j);
      FirstsGrow(h, trieds, i, j);
      assert n + Firsts(h, trieds, i) !in Loose(info);
    }
  }

  /** A file loads as a consistent manager if and only if its counts are not negative and no record that
      stays shares its address. */
  lemma LoadsWholeIff(h: Hashes, d: Disk)
    requires Load(h, d).Success?
    ensures Whole(h, Load(h, d).st) <==> Formed(d) && Clear(h, d)
  {
    hide Whole, Load, NoClash, Clear, Filled, RecordsAre;
    LoadWholeIff(h, d);
    if Formed(d) {
      FilledRecordsAre(h, d);
      if Clear(h, d) { ClearNoClash(h, d, Filled(h, d).info); }
      if NoClash(Filled(h, d).info) { NoClashClear(h, d, Filled(h, d).info); }
    }
  }
}
