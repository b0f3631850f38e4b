/** The UTXO cache stack: write-back caches with DIRTY and FRESH flags over a coin database.

    `View` is the value of a whole stack of layers.  The functions on `View` say what one call
    does to that value; class `CoinsViewCache` makes the same calls in place, each method proved
    against its function.  The theorems say that a stack always means one flat map of unspent
    coins, however its layers are read, written, flushed and uncached. */
module Coins {

  import opened Basics

  // ---------------------------------------------------------------- values

  /** Two outpoints are the same key when hash and index agree; the amount a reference carries
      takes no part in the comparison and is not modelled. */
  datatype OutPoint = OutPoint(hash: nat, n: nat)

  datatype TxOut = TxOut(value: int, principal: int, script: seq<bv8>, content: string, lockTime: nat)

  const NULL_OUT := TxOut(-1, 0, [], "", 0)

  datatype Coin = Coin(out: TxOut, heightAndCoinBase: nat) {
    predicate IsSpent() { out.value == -1 && out.principal == 0 }

    predicate IsUnspendable() {
      (|out.script| > 0 && out.script[0] == 0x6a) || |out.script| > 10000
    }
  }

  const EMPTY_COIN := Coin(NULL_OUT, 0)

  datatype Entry = Entry(coin: Coin, isDirty: bool, isFresh: bool)

  type CoinsMap = map<OutPoint, Entry>

  datatype View = DB(coins: map<OutPoint, Coin>) | Cache(entries: CoinsMap, below: View)

  function Height(v: View): nat {
    match v
    case DB(_) => 0
    case Cache(_, below) => 1 + Height(below)
  }

  // ---------------------------------------------------------------- meaning

  function UnspentOf(m: CoinsMap): map<OutPoint, Coin> {
    map o | o in m && !m[o].coin.IsSpent() :: m[o].coin
  }

  /** The flat map a stack stands for: top-down lookup, a spent coin counting as absent. */
  function Flat(v: View): map<OutPoint, Coin> {
    match v
    case DB(coins) => map o | o in coins && !coins[o].IsSpent() :: coins[o]
    case Cache(entries, below) => (Flat(below) - entries.Keys) + UnspentOf(entries)
  }

  /** What an entry may claim about the layer below it: without DIRTY it agrees with it, and
      with FRESH there is no unspent coin there. */
  ghost predicate Honest(o: OutPoint, e: Entry, below: map<OutPoint, Coin>) {
    && (!e.isDirty ==> if e.coin.IsSpent() then o !in below else o in below && below[o] == e.coin)
    && (e.isFresh ==> o !in below)
  }

  ghost predicate Inv(v: View) {
    match v
    case DB(coins) => forall o :: o in coins ==> !coins[o].IsSpent()
    case Cache(entries, below) =>
      Inv(below) && forall o :: o in entries ==> Honest(o, entries[o], Flat(below))
  }

  // ---------------------------------------------------------------- one call

  function Lookup(v: View, o: OutPoint): Option<Coin> {
    match v
    case DB(coins) => if o in coins then Some(coins[o]) else None
    case Cache(entries, below) => if o in entries then Some(entries[o].coin) else Lookup(below, o)
  }

  function Fetch(v: View, o: OutPoint): View {
    match v
    case DB(_) => v
    case Cache(entries, below) =>
      if o in entries then v else
      match Lookup(below, o)
      case None => Cache(entries, Fetch(below, o))
      case Some(c) => Cache(entries[o := Entry(c, false, c.IsSpent())], Fetch(below, o))
  }

  /** The entry AddCoin finds, which is a new empty one if there was none. */
  function Slot(m: CoinsMap, o: OutPoint): Entry {
    if o in m then m[o] else Entry(EMPTY_COIN, false, false)
  }

  predicate AddThrows(v: View, o: OutPoint, coin: Coin, overwrite: bool)
    requires v.Cache?
  {
    !coin.IsUnspendable() && !overwrite && !Slot(v.entries, o).coin.IsSpent()
  }

  function AddCoin(v: View, o: OutPoint, coin: Coin, overwrite: bool): View
    requires v.Cache?
  {
    if coin.IsUnspendable() || AddThrows(v, o, coin, overwrite) then v else
    var e := Slot(v.entries, o);
    v.(entries := v.entries[o := Entry(coin, true, e.isFresh || (!overwrite && !e.isDirty))])
  }

  function SpendCoin(v: View, o: OutPoint): View
    requires v.Cache?
  {
    var w := Fetch(v, o);
    if o !in w.entries then w
    else if w.entries[o].isFresh then w.(entries := w.entries - {o})
    else w.(entries := w.entries[o := Entry(EMPTY_COIN, true, false)])
  }

  function Uncache(v: View, o: OutPoint): View
    requires v.Cache?
  {
    if o in v.entries && !v.entries[o].isDirty && !v.entries[o].isFresh
    then v.(entries := v.entries - {o}) else v
  }

  /** What a child's DIRTY entry makes of the parent's entry for the same outpoint. */
  function Merge(parent: Option<Entry>, child: Entry): Option<Entry> {
    match parent
    case None =>
      if child.isFresh && child.coin.IsSpent() then None else Some(Entry(child.coin, true, child.isFresh))
    case Some(p) =>
      if p.isFresh && child.coin.IsSpent() then None else Some(Entry(child.coin, true, p.isFresh))
  }

  function At<V>(m: map<OutPoint, V>, o: OutPoint): Option<V> {
    if o in m then Some(m[o]) else None
  }

  predicate Misapplied(parent: CoinsMap, child: CoinsMap, o: OutPoint) {
    o in child && child[o].isDirty && child[o].isFresh && o in parent && !parent[o].coin.IsSpent()
  }

  predicate WriteThrows(v: View, child: CoinsMap) {
    v.Cache? && exists o :: o in child && Misapplied(v.entries, child, o)
  }

  function Merged(parent: CoinsMap, child: CoinsMap, o: OutPoint): Option<Entry> {
    if o in child && child[o].isDirty then Merge(At(parent, o), child[o]) else At(parent, o)
  }

  function WriteEntries(parent: CoinsMap, child: CoinsMap): CoinsMap {
    map o | o in parent.Keys + child.Keys && Merged(parent, child, o).Some? :: Merged(parent, child, o).value
  }

  function WriteCoins(coins: map<OutPoint, Coin>, child: CoinsMap): map<OutPoint, Coin> {
    map o | o in coins.Keys + child.Keys &&
            (if o in child && child[o].isDirty then !child[o].coin.IsSpent() else o in coins) ::
      if o in child && child[o].isDirty then child[o].coin else coins[o]
  }

  function BatchWrite(v: View, child: CoinsMap): View {
    match v
    case DB(coins) => DB(WriteCoins(coins, child))
    case Cache(entries, below) => Cache(WriteEntries(entries, child), below)
  }

  function Flush(v: View): View
    requires v.Cache?
  {
    Cache(map[], BatchWrite(v.below, v.entries))
  }

  // ---------------------------------------------------------------- facts about one call

  lemma {:induction false} FlatLookup(v: View, o: OutPoint)
    ensures o in Flat(v) <==> Lookup(v, o).Some? && !Lookup(v, o).value.IsSpent()
    ensures o in Flat(v) ==> Flat(v)[o] == Lookup(v, o).value
  {
    if v.Cache? { FlatLookup(v.below, o); }
  }

  /** Changing the layers below without changing what they mean changes nothing above. */
  lemma SameBelow(entries: CoinsMap, below: View, below': View)
    requires Inv(Cache(entries, below)) && Inv(below') && Flat(below') == Flat(below)
    ensures Inv(Cache(entries, below')) && Flat(Cache(entries, below')) == Flat(Cache(entries, below))
  {
  }

  function Put(m: map<OutPoint, Coin>, o: OutPoint, coin: Coin): map<OutPoint, Coin> {
    if coin.IsSpent() then m - {o} else m[o := coin]
  }

  lemma SameAt<V>(m: map<OutPoint, V>, m': map<OutPoint, V>)
    requires forall o :: At(m, o) == At(m', o)
    ensures m == m'
  {
    forall o: OutPoint
      ensures (o in m <==> o in m') && (o in m ==> m[o] == m'[o])
    {
      assert At(m, o) == At(m', o);
    }
  }

  lemma SetEntry(v: View, o: OutPoint, e: Entry)
    requires v.Cache? && Inv(v) && Honest(o, e, Flat(v.below))
    ensures Inv(v.(entries := v.entries[o := e]))
    ensures Flat(v.(entries := v.entries[o := e])) == Put(Flat(v), o, e.coin)
  {
    var w := v.(entries := v.entries[o := e]);
    forall p: OutPoint
      ensures At(Flat(w), p) == At(Put(Flat(v), o, e.coin), p)
    {
      FlatLookup(v, p);
      FlatLookup(w, p);
    }
    SameAt(Flat(w), Put(Flat(v), o, e.coin));
  }

  lemma EraseEntry(v: View, o: OutPoint)
    requires v.Cache? && Inv(v)
    ensures Inv(v.(entries := v.entries - {o}))
    ensures o !in Flat(v.below) ==> Flat(v.(entries := v.entries - {o})) == Flat(v) - {o}
    ensures o in v.entries && !v.entries[o].isDirty ==> Flat(v.(entries := v.entries - {o})) == Flat(v)
  {
    var w := v.(entries := v.entries - {o});
    forall p: OutPoint
      ensures p != o ==> At(Flat(w), p) == At(Flat(v), p)
      ensures At(Flat(w), o) == At(Flat(v.below), o)
    {
      FlatLookup(v, p);
      FlatLookup(w, p);
    }
    if o !in Flat(v.below) { SameAt(Flat(w), Flat(v) - {o}); }
    if o in v.entries && !v.entries[o].isDirty {
      assert Honest(o, v.entries[o], Flat(v.below));
      SameAt(Flat(w), Flat(v));
    }
  }

  /** A coin found below enters this cache as an honest entry. */
  lemma FetchStep(v: View, o: OutPoint, w: View)
    requires v.Cache? && Inv(v) && o !in v.entries && w == Cache(v.entries, Fetch(v.below, o))
    requires Inv(w.below) && Flat(w.below) == Flat(v.below) && Lookup(w.below, o) == Lookup(v.below, o)
    ensures Inv(Fetch(v, o)) && Flat(Fetch(v, o)) == Flat(v)
  {
    SameBelow(v.entries, v.below, w.below);
    FlatLookup(v, o);
    FlatLookup(v.below, o);
    if Lookup(v.below, o).Some? {
      var c := Lookup(v.below, o).value;
      SetEntry(w, o, Entry(c, false, c.IsSpent()));
    }
  }

  lemma {:induction false} FetchKeeps(v: View, o: OutPoint)
    requires Inv(v)
    ensures Inv(Fetch(v, o)) && Flat(Fetch(v, o)) == Flat(v)
    ensures Lookup(Fetch(v, o), o) == Lookup(v, o)
    ensures v.Cache? ==> Fetch(v, o).Cache? && (o in Fetch(v, o).entries <==> Lookup(v, o).Some?)
  {
    if v.Cache? && o !in v.entries {
      FetchKeeps(v.below, o);
      FetchStep(v, o, Cache(v.entries, Fetch(v.below, o)));
      hide Flat, Inv;
    }
  }

  lemma AddKeeps(v: View, o: OutPoint, coin: Coin, overwrite: bool)
    requires v.Cache? && Inv(v) && !coin.IsSpent()
    requires coin.IsUnspendable() || overwrite || o !in Flat(v)
    ensures !AddThrows(v, o, coin, overwrite)
    ensures Inv(AddCoin(v, o, coin, overwrite))
    ensures Flat(AddCoin(v, o, coin, overwrite)) == if coin.IsUnspendable() then Flat(v) else Flat(v)[o := coin]
  {
    FlatLookup(v, o);
    FlatLookup(v.below, o);
    if !coin.IsUnspendable() {
      var e := Slot(v.entries, o);
      SetEntry(v, o, Entry(coin, true, e.isFresh || (!overwrite && !e.isDirty)));
    }
  }

  lemma SpendKeeps(v: View, o: OutPoint)
    requires v.Cache? && Inv(v)
    ensures Inv(SpendCoin(v, o)) && Flat(SpendCoin(v, o)) == Flat(v) - {o}
  {
    FetchKeeps(v, o);
    FlatLookup(v, o);
    var w := Fetch(v, o);
    if o in w.entries {
      if w.entries[o].isFresh {
        EraseEntry(w, o);
      } else {
        SetEntry(w, o, Entry(EMPTY_COIN, true, false));
      }
    }
  }

  lemma UncacheKeeps(v: View, o: OutPoint)
    requires v.Cache? && Inv(v)
    ensures Inv(Uncache(v, o)) && Flat(Uncache(v, o)) == Flat(v)
  {
    EraseEntry(v, o);
  }

  /** A child layer whose entries are honest about the layer below never meets the throw. */
  lemma WriteNeverThrows(v: View, child: CoinsMap)
    requires Inv(Cache(child, v))
    ensures !WriteThrows(v, child)
  {
    if v.Cache? {
      forall o | o in child
        ensures !Misapplied(v.entries, child, o)
      {
        FlatLookup(v, o);
        assert Honest(o, child[o], Flat(v));
      }
    }
  }

  lemma WriteCoinsKeeps(coins: map<OutPoint, Coin>, child: CoinsMap)
    requires Inv(Cache(child, DB(coins)))
    ensures Inv(DB(WriteCoins(coins, child)))
    ensures Flat(DB(WriteCoins(coins, child))) == Flat(Cache(child, DB(coins)))
  {
    var v := Cache(child, DB(coins));
    forall o: OutPoint
      ensures At(Flat(DB(WriteCoins(coins, child))), o) == At(Flat(v), o)
    {
      assert o in child ==> Honest(o, child[o], Flat(DB(coins)));
    }
    SameAt(Flat(DB(WriteCoins(coins, child))), Flat(v));
  }

  /** One outpoint of a batch write into a cache: the written entry is honest about the layer
      below the parent, and the parent then means what the child meant. */
  lemma WriteAt(parent: CoinsMap, below: View, child: CoinsMap, o: OutPoint)
    requires Inv(Cache(child, Cache(parent, below)))
    ensures var r := Merged(parent, child, o);
            && (r.Some? ==> Honest(o, r.value, Flat(below)))
            && At(Flat(Cache(child, Cache(parent, below))), o) ==
               (if r.None? then At(Flat(below), o) else if r.value.coin.IsSpent() then None else Some(r.value.coin))
  {
    FlatLookup(Cache(parent, below), o);
    FlatLookup(below, o);
    FlatLookup(Cache(child, Cache(parent, below)), o);
    assert o in child ==> Honest(o, child[o], Flat(Cache(parent, below)));
    assert o in parent ==> Honest(o, parent[o], Flat(below));
  }

  lemma WriteEntriesKeeps(parent: CoinsMap, below: View, child: CoinsMap)
    requires Inv(Cache(child, Cache(parent, below)))
    ensures Inv(Cache(WriteEntries(parent, child), below))
    ensures Flat(Cache(WriteEntries(parent, child), below)) == Flat(Cache(child, Cache(parent, below)))
  {
    var w := WriteEntries(parent, child);
    forall o: OutPoint
      ensures At(w, o) == Merged(parent, child, o)
      ensures o in w ==> Honest(o, w[o], Flat(below))
      ensures At(Flat(Cache(w, below)), o) == At(Flat(Cache(child, Cache(parent, below))), o)
    {
      WriteAt(parent, below, child, o);
      FlatLookup(Cache(w, below), o);
      FlatLookup(below, o);
    }
    SameAt(Flat(Cache(w, below)), Flat(Cache(child, Cache(parent, below))));
  }

  lemma EmptyLayer(below: View)
    requires Inv(below)
    ensures Inv(Cache(map[], below)) && Flat(Cache(map[], below)) == Flat(below)
  {
  }

  lemma FlushKeeps(v: View)
    requires v.Cache? && Inv(v)
    ensures !WriteThrows(v.below, v.entries) && Inv(Flush(v)) && Flat(Flush(v)) == Flat(v)
  {
    WriteNeverThrows(v.below, v.entries);
    match v.below {
      case DB(coins) => WriteCoinsKeeps(coins, v.entries);
      case Cache(entries, b) => WriteEntriesKeeps(entries, b, v.entries);
    }
    EmptyLayer(BatchWrite(v.below, v.entries));
  }

  // ---------------------------------------------------------------- runs

  /** A call; `k` counts layers from the top.  Coins are added and spent in the top layer only,
      every layer may be read, uncached and flushed into the one below it. */
  datatype Op =
    | Get(k: nat, o: OutPoint)
    | Have(k: nat, o: OutPoint)
    | Add(o: OutPoint, coin: Coin, overwrite: bool)
    | Spend(o: OutPoint)
    | FlushLayer(k: nat)
    | UncacheLayer(k: nat, o: OutPoint)

  datatype Answer = Silent | Threw | Found(coin: Option<Coin>) | Flag(flag: bool)

  datatype Result<S> = Result(state: S, answer: Answer)

  function Live(c: Option<Coin>): Option<Coin> {
    if c.Some? && !c.value.IsSpent() then c else None
  }

  /** The call on a stack of cache layers, `k` being the layer it is made on. */
  function StepAt(v: View, k: nat, op: Op): Result<View>
    requires k < Height(v)
  {
    if k > 0 then
      var r := StepAt(v.below, k - 1, op);
      Result(Cache(v.entries, r.state), r.answer)
    else match op
      case Get(_, o) => Result(Fetch(v, o), Found(Live(Lookup(v, o))))
      case Have(_, o) => Result(Fetch(v, o), Flag(Live(Lookup(v, o)).Some?))
      case Add(o, c, ow) => Result(AddCoin(v, o, c, ow), if AddThrows(v, o, c, ow) then Threw else Silent)
      case Spend(o) => Result(SpendCoin(v, o), Found(Live(Lookup(v, o))))
      case FlushLayer(_) =>
        if WriteThrows(v.below, v.entries) then Result(v, Threw) else Result(Flush(v), Silent)
      case UncacheLayer(_, o) => Result(Uncache(v, o), Silent)
  }

  function Layer(op: Op): nat {
    if op.Add? || op.Spend? then 0 else op.k
  }

  function Run(v: View, ops: seq<Op>): Result<(View, seq<Answer>)>
    requires forall i :: 0 <= i < |ops| ==> Layer(ops[i]) < Height(v)
    decreases |ops|
  {
    if ops == [] then Result((v, []), Silent) else
    var r := StepAt(v, Layer(ops[0]), ops[0]);
    StepHeight(v, Layer(ops[0]), ops[0]);
    if r.answer == Threw then Result((r.state, [Threw]), Threw) else
    var rest := Run(r.state, ops[1..]);
    Result((rest.state.0, [r.answer] + rest.state.1), rest.answer)
  }

  lemma {:induction false} FetchHeight(v: View, o: OutPoint)
    ensures Height(Fetch(v, o)) == Height(v)
  {
    if v.Cache? { FetchHeight(v.below, o); }
  }

  lemma {:induction false} StepHeight(v: View, k: nat, op: Op)
    requires k < Height(v)
    ensures Height(StepAt(v, k, op).state) == Height(v)
  {
    if k > 0 {
      StepHeight(v.below, k - 1, op);
    } else {
      if op.Get? || op.Have? || op.Spend? { FetchHeight(v, op.o); }
    }
  }

  // The same calls on flat maps alone: one map per layer and one for the database, top first.
  type Levels = seq<map<OutPoint, Coin>>

  function LevelsOf(v: View): Levels {
    [Flat(v)] + if v.Cache? then LevelsOf(v.below) else []
  }

  predicate Legal(m: Levels, op: Op) {
    && Layer(op) + 1 < |m|
    && (op.Add? ==> !op.coin.IsSpent() && (op.coin.IsUnspendable() || op.overwrite || op.o !in m[0]))
  }

  function FlatStep(m: Levels, op: Op): Result<Levels>
    requires Legal(m, op)
  {
    match op
    case Get(k, o) => Result(m, Found(At(m[k], o)))
    case Have(k, o) => Result(m, Flag(o in m[k]))
    case Add(o, c, _) => Result(if c.IsUnspendable() then m else m[0 := m[0][o := c]], Silent)
    case Spend(o) => Result(m[0 := m[0] - {o}], Found(At(m[0], o)))
    case FlushLayer(k) => Result(m[k + 1 := m[k]], Silent)
    case UncacheLayer(_, _) => Result(m, Silent)
  }

  predicate LegalRun(m: Levels, ops: seq<Op>)
    decreases |ops|
  {
    ops == [] || (Legal(m, ops[0]) && LegalRun(FlatStep(m, ops[0]).state, ops[1..]))
  }

  function FlatRun(m: Levels, ops: seq<Op>): (Levels, seq<Answer>)
    requires LegalRun(m, ops)
    decreases |ops|
  {
    if ops == [] then (m, []) else
    var r := FlatStep(m, ops[0]);
    var rest := FlatRun(r.state, ops[1..]);
    (rest.0, [r.answer] + rest.1)
  }

  lemma {:induction false} LevelsHeight(v: View)
    ensures |LevelsOf(v)| == Height(v) + 1
  {
    if v.Cache? { LevelsHeight(v.below); }
  }

  lemma {:induction false} FetchLevels(v: View, o: OutPoint)
    requires Inv(v)
    ensures LevelsOf(Fetch(v, o)) == LevelsOf(v)
  {
    FetchKeeps(v, o);
    if v.Cache? { FetchLevels(v.below, o); }
  }

  /** The operation as seen from a layer further down. */
  function Down(op: Op): Op
    requires Layer(op) > 0
  {
    match op
    case Get(k, o) => Get(k - 1, o)
    case Have(k, o) => Have(k - 1, o)
    case FlushLayer(k) => FlushLayer(k - 1)
    case UncacheLayer(k, o) => UncacheLayer(k - 1, o)
  }

  /** Two stacks that mean the same from the second layer down. */
  lemma TopLevel(v: View, w: View)
    requires v.Cache? && w.Cache? && LevelsOf(w.below) == LevelsOf(v.below)
    ensures LevelsOf(w) == LevelsOf(v)[0 := Flat(w)]
  {
  }

  lemma SpendLevels(v: View, o: OutPoint)
    requires v.Cache? && Inv(v)
    ensures LevelsOf(SpendCoin(v, o)) == LevelsOf(v)[0 := Flat(v) - {o}]
  {
    SpendKeeps(v, o);
    FetchKeeps(v, o);
    FetchLevels(v, o);
    var w := Fetch(v, o);
    assert LevelsOf(w.below) == LevelsOf(w)[1..] == LevelsOf(v)[1..] == LevelsOf(v.below);
    TopLevel(v, SpendCoin(v, o));
  }

  lemma FlushLevels(v: View)
    requires v.Cache? && Inv(v)
    ensures |LevelsOf(v)| > 1 && LevelsOf(Flush(v)) == LevelsOf(v)[1 := Flat(v)]
  {
    LevelsHeight(v);
    FlushKeeps(v);
    var below := BatchWrite(v.below, v.entries);
    EmptyLayer(below);
    WrittenLevels(v.below, v.entries);
    hide Inv, Flat, BatchWrite;
  }

  /** Writing into a view leaves the views below it alone. */
  lemma WrittenLevels(v: View, entries: CoinsMap)
    ensures LevelsOf(BatchWrite(v, entries)) == LevelsOf(v)[0 := Flat(BatchWrite(v, entries))]
  {
    hide Flat;
  }

  ghost predicate Refines(v: View, op: Op, r: Result<View>)
    requires Legal(LevelsOf(v), op)
  {
    var f := FlatStep(LevelsOf(v), op);
    Inv(r.state) && LevelsOf(r.state) == f.state && r.answer == f.answer && r.answer != Threw
  }

  lemma ReadRefines(v: View, op: Op, o: OutPoint)
    requires Inv(v) && v.Cache? && Legal(LevelsOf(v), op) && (op == Get(0, o) || op == Have(0, o))
    ensures Refines(v, op, StepAt(v, 0, op))
  {
    FetchKeeps(v, o);
    FetchLevels(v, o);
    FlatLookup(v, o);
  }

  lemma TopStepRefines(v: View, op: Op)
    requires Inv(v) && v.Cache? && Layer(op) == 0 && Legal(LevelsOf(v), op)
    ensures Refines(v, op, StepAt(v, 0, op))
  {
    hide Inv;
    match op {
      case Get(_, o) => ReadRefines(v, op, o);
      case Have(_, o) => ReadRefines(v, op, o);
      case Add(o, c, ow) => AddKeeps(v, o, c, ow); TopLevel(v, AddCoin(v, o, c, ow));
      case Spend(o) => SpendKeeps(v, o); FlatLookup(v, o); SpendLevels(v, o);
      case FlushLayer(_) => FlushKeeps(v); FlushLevels(v);
      case UncacheLayer(_, o) => UncacheKeeps(v, o); TopLevel(v, Uncache(v, o));
    }
  }

  /** A call on a lower layer is a call on the stack below. */
  lemma FlatDown(m: Levels, op: Op)
    requires Layer(op) > 0 && Legal(m, op)
    ensures |m| > 1 && Legal(m[1..], Down(op))
    ensures FlatStep(m, op).answer == FlatStep(m[1..], Down(op)).answer
    ensures FlatStep(m, op).state == [m[0]] + FlatStep(m[1..], Down(op)).state
    ensures FlatStep(m[1..], Down(op)).state != [] && FlatStep(m[1..], Down(op)).state[0] == m[1]
  {
  }

  lemma LowerRefines(v: View, op: Op)
    requires Inv(v) && v.Cache? && Legal(LevelsOf(v), op) && 0 < Layer(op) < Height(v)
    requires Legal(LevelsOf(v.below), Down(op)) && Refines(v.below, Down(op), StepAt(v.below, Layer(op) - 1, op))
    ensures Refines(v, op, StepAt(v, Layer(op), op))
  {
    var m, r := LevelsOf(v), StepAt(v.below, Layer(op) - 1, op);
    assert m[1..] == LevelsOf(v.below) && m[0] == Flat(v);
    FlatDown(m, op);
    assert LevelsOf(r.state)[0] == Flat(r.state) && LevelsOf(v.below)[0] == Flat(v.below);
    SameBelow(v.entries, v.below, r.state);
    hide Flat, FlatStep, Legal, Inv;
  }

  lemma LegalBelow(v: View, op: Op)
    requires v.Cache? && Inv(v) && Legal(LevelsOf(v), op) && Layer(op) > 0
    ensures v.below.Cache? && Inv(v.below) && Legal(LevelsOf(v.below), Down(op))
  {
    assert LevelsOf(v)[1..] == LevelsOf(v.below);
    FlatDown(LevelsOf(v), op);
    LevelsHeight(v);
  }

  lemma {:induction false} StepRefines(v: View, op: Op)
    requires Inv(v) && v.Cache? && Legal(LevelsOf(v), op)
    ensures Layer(op) < Height(v) && Refines(v, op, StepAt(v, Layer(op), op))
  {
    LevelsHeight(v);
    if Layer(op) == 0 {
      hide Refines, Inv, LevelsOf, StepAt;
      TopStepRefines(v, op);
    } else {
      LegalBelow(v, op);
      hide Refines, Inv, LevelsOf, StepAt, Flat;
      StepRefines(v.below, Down(op));
      StepAtSame(v.below, Layer(op) - 1, op, Down(op));
      LowerRefines(v, op);
    }
  }

  lemma {:induction false} StepAtSame(v: View, k: nat, op: Op, op': Op)
    requires k < Height(v) && Layer(op) > 0 && op' == Down(op)
    ensures StepAt(v, k, op) == StepAt(v, k, op')
  {
    if k > 0 { StepAtSame(v.below, k - 1, op, op'); }
  }

  /** Main theorem.  Every run of legal calls on a stack of any height acts as the same calls on
      flat maps: the layers end with the same meanings, every read and spend gives the same
      answer, and no exception is thrown. */
  lemma {:induction false} RunRefines(v: View, ops: seq<Op>)
    requires Inv(v) && v.Cache? && LegalRun(LevelsOf(v), ops)
    ensures forall i :: 0 <= i < |ops| ==> Layer(ops[i]) < Height(v)
    ensures var r := Run(v, ops); var f := FlatRun(LevelsOf(v), ops);
            && Inv(r.state.0) && LevelsOf(r.state.0) == f.0
            && r.state.1 == f.1 && r.answer == Silent && Threw !in r.state.1
    decreases |ops|
  {
    if ops != [] {
      StepRefines(v, ops[0]);
      StepHeight(v, Layer(ops[0]), ops[0]);
      RunRefines(StepAt(v, Layer(ops[0]), ops[0]).state, ops[1..]);
      forall i | 0 <= i < |ops|
        ensures Layer(ops[i]) < Height(v)
      {
        if i > 0 { assert ops[i] == ops[1..][i - 1]; }
      }
    }
  }

  // ---------------------------------------------------------------- the caller's duty

  /** AddCoin without possible_overwrite keeps a spendable coin's layer honest exactly when no
      unspent coin was there. */
  lemma AddKeepsIff(v: View, o: OutPoint, coin: Coin)
    requires v.Cache? && Inv(v) && !coin.IsSpent() && !coin.IsUnspendable()
    ensures !AddThrows(v, o, coin, false) && Inv(AddCoin(v, o, coin, false)) <==> o !in Flat(v)
  {
    FlatLookup(v, o);
    if o !in Flat(v) {
      AddKeeps(v, o, coin, false);
    } else if !AddThrows(v, o, coin, false) {
      FlatLookup(v.below, o);
      var w := AddCoin(v, o, coin, false);
      assert !Honest(o, w.entries[o], Flat(w.below));
    }
  }

  /** Breaking that duty on a coin that was never fetched revives it: add over it, spend the
      new coin, and the old one is back, for every cache and every pair of coins. */
  lemma OverwriteRevives(v: View, o: OutPoint, coin: Coin)
    requires v.Cache? && Inv(v) && !coin.IsSpent() && !coin.IsUnspendable()
    requires o in Flat(v) && o !in v.entries
    ensures var w := AddCoin(v, o, coin, false);
            !AddThrows(v, o, coin, false) && o in Flat(SpendCoin(w, o)) && Flat(SpendCoin(w, o))[o] == Flat(v)[o]
  {
    var w := AddCoin(v, o, coin, false);
    assert Fetch(w, o) == w && o in w.entries && w.entries[o].isFresh;
    FlatLookup(v, o);
    FlatLookup(SpendCoin(w, o), o);
  }

  // ---------------------------------------------------------------- what the flags save

  /** A coin added where the cache had nothing and spent again leaves no trace. */
  lemma AddSpendUndoes(v: View, o: OutPoint, coin: Coin)
    requires v.Cache? && o !in v.entries && !coin.IsUnspendable()
    ensures SpendCoin(AddCoin(v, o, coin, false), o) == v
  {
    var w := AddCoin(v, o, coin, false);
    assert Fetch(w, o) == w && w.entries - {o} == v.entries;
  }

  /** Nor does a FRESH coin of the layer below, spent above it, once the spend is flushed down. */
  lemma FreshForgotten(v: View, o: OutPoint)
    requires v.Cache? && v.below.Cache? && Inv(v) && o in Flat(v)
    requires o in v.below.entries && v.below.entries[o].isFresh && !v.below.entries[o].coin.IsSpent()
    ensures var w := Flush(SpendCoin(v, o)); w.entries == map[] && w.below.Cache? && o !in w.below.entries
    ensures Flush(SpendCoin(v, o)).below.below == v.below.below
  {
    FlatLookup(v, o);
    FlatLookup(v.below, o);
    assert o in v.entries ==> Honest(o, v.entries[o], Flat(v.below));
    var w := SpendCoin(v, o);
    assert Fetch(v.below, o) == v.below;
    assert w.below == v.below && o in w.entries && w.entries[o] == Entry(EMPTY_COIN, true, false);
  }

  /** Uncaching drops just the entry, if it is neither DIRTY nor FRESH; a coin dropped comes back when it
      is read. */
  lemma UncacheFrees(v: View, o: OutPoint)
    requires v.Cache? && Inv(v)
    ensures o in Uncache(v, o).entries <==> o in v.entries && (v.entries[o].isDirty || v.entries[o].isFresh)
    ensures Uncache(v, o).entries - {o} == v.entries - {o} && Uncache(v, o).below == v.below
    ensures o in v.entries && !v.entries[o].coin.IsSpent() ==> Fetch(Uncache(v, o), o).entries == v.entries
  {
    FlatLookup(v.below, o);
    if o in v.entries && !v.entries[o].isDirty && !v.entries[o].coin.IsSpent() {
      assert Honest(o, v.entries[o], Flat(v.below));
      assert v.entries[o] == Entry(v.entries[o].coin, false, v.entries[o].isFresh);
    }
  }
}
