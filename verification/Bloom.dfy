/** The rolling Bloom filter: two bit-planes that tag every cell with one of three generations.

    Inserting marks a key's cells with the current generation; when a generation is full the
    next one starts, and the cells that still carry its number from its last turn are wiped, two
    words at a time.  The filter promises no false negatives over a sliding window of inserts. */
module Bloom {

  import opened Basics

  type Key = seq<bv8>

  const ONES: bv64 := 0xFFFF_FFFF_FFFF_FFFF

  /** One of the cells of a filter: a bit position in a pair of words. */
  datatype Cell = Cell(pair: nat, bit: bv64)

  // ---------------------------------------------------------------- bits of a word

  predicate One(w: bv64, k: bv64)
    requires k < 64
  {
    (w >> k) & 1 == 1
  }

  function At(g: bv64, b: bv64): bv64
    requires b < 64
  {
    g << b
  }

  /** Clears the bits of s in w and sets those of t. */
  function Assign(w: bv64, s: bv64, t: bv64): bv64 {
    (w & !s) | t
  }

  lemma OneOf(w: bv64, s: bv64, t: bv64, k: bv64)
    requires k < 64
    ensures One((w & !s) | t, k) == ((One(w, k) && !One(s, k)) || One(t, k))
  {
  }

  lemma OneAssign(w: bv64, s: bv64, t: bv64, k: bv64)
    requires k < 64
    ensures One(Assign(w, s, t), k) == ((One(w, k) && !One(s, k)) || One(t, k))
  {
    hide One;
    OneOf(w, s, t, k);
  }

  lemma OneAt(g: bv64, b: bv64, k: bv64)
    requires b < 64 && k < 64 && (g == 0 || g == 1)
    ensures One(At(g, b), k) == (k == b && g == 1)
  {
  }

  /** The bits of w that m keeps. */
  function Kept(w: bv64, m: bv64): bv64 { w & m }

  /** Zero where the two planes show the generation whose masks are m1 and m2. */
  function KeepMask(p1: bv64, p2: bv64, m1: bv64, m2: bv64): bv64 {
    (p1 ^ m1) | (p2 ^ m2)
  }

  lemma OneMasked(p1: bv64, p2: bv64, m1: bv64, m2: bv64, k: bv64)
    requires k < 64 && (m1 == 0 || m1 == ONES) && (m2 == 0 || m2 == ONES)
    ensures var mask := (p1 ^ m1) | (p2 ^ m2);
            var same := One(p1, k) == (m1 == ONES) && One(p2, k) == (m2 == ONES);
            One(p1 & mask, k) == (One(p1, k) && !same) && One(p2 & mask, k) == (One(p2, k) && !same)
  {
  }

  lemma OneKept(p1: bv64, p2: bv64, m1: bv64, m2: bv64, k: bv64)
    requires k < 64 && (m1 == 0 || m1 == ONES) && (m2 == 0 || m2 == ONES)
    ensures var mask := KeepMask(p1, p2, m1, m2);
            var same := One(p1, k) == (m1 == ONES) && One(p2, k) == (m2 == ONES);
            One(Kept(p1, mask), k) == (One(p1, k) && !same) && One(Kept(p2, mask), k) == (One(p2, k) && !same)
  {
    hide One;
    OneMasked(p1, p2, m1, m2, k);
  }

  lemma OneEither(p1: bv64, p2: bv64, k: bv64)
    requires k < 64
    ensures ((p1 | p2) >> k) & 1 == 0 <==> !One(p1, k) && !One(p2, k)
  {
  }

  // ---------------------------------------------------------------- the filter as a value

  datatype Filter = Filter(perGeneration: nat, thisGeneration: nat, generation: nat, data: seq<bv64>)

  /** The hash functions, with the tweak already applied, and how many there are. */
  datatype Hashes = Hashes(hash: (nat, Key) -> bv32, count: nat)

  ghost predicate Sized(data: seq<bv64>) {
    |data| > 0 && |data| % 2 == 0
  }

  function CellOf(h: bv32, size: nat): (c: Cell)
    requires size > 0 && size % 2 == 0
    ensures c.bit < 64 && 2 * c.pair + 1 < size
  {
    var pos := (h >> 6) as int % size;
    Cell(pos / 2, (h & 0x3F) as bv64)
  }

  function CellsOf(h: Hashes, key: Key, size: nat): (cs: seq<Cell>)
    requires size > 0 && size % 2 == 0
    ensures |cs| == h.count
    ensures forall n :: 0 <= n < |cs| ==> cs[n] == CellOf(h.hash(n, key), size)
  {
    seq(h.count, n requires 0 <= n < h.count => CellOf(h.hash(n, key), size))
  }

  predicate Within(c: Cell, data: seq<bv64>) {
    c.bit < 64 && 2 * c.pair + 1 < |data|
  }

  /** The generation a cell is tagged with; zero if it is unset. */
  function Tag(data: seq<bv64>, c: Cell): nat
    requires c.bit < 64 && 2 * c.pair + 1 < |data|
  {
    (if One(data[2 * c.pair], c.bit) then 1 else 0) + (if One(data[2 * c.pair + 1], c.bit) then 2 else 0)
  }

  /** All ones if the generation's low (or high) bit is set, else zero. */
  function LowMask(g: nat): bv64 { if g % 2 == 1 then ONES else 0 }

  function HighMask(g: nat): bv64 { if g / 2 == 1 then ONES else 0 }

  function LowBit(g: nat): bv64 { if g % 2 == 1 then 1 else 0 }

  function HighBit(g: nat): bv64 { if g / 2 == 1 then 1 else 0 }

  /** Both planes with the cells of one generation cleared. */
  function Wiped(data: seq<bv64>, g: nat): (r: seq<bv64>)
    requires |data| % 2 == 0
    ensures |r| == |data|
  {
    seq(|data|, i requires 0 <= i < |data| => WipedWord(data, g, i))
  }

  function WipedWord(data: seq<bv64>, g: nat, i: nat): bv64
    requires |data| % 2 == 0 && i < |data|
  {
    if i % 2 == 0 then Kept(data[i], KeepMask(data[i], data[i + 1], LowMask(g), HighMask(g)))
    else Kept(data[i], KeepMask(data[i - 1], data[i], LowMask(g), HighMask(g)))
  }

  function Marked(data: seq<bv64>, c: Cell, g: nat): (r: seq<bv64>)
    requires c.bit < 64 && 2 * c.pair + 1 < |data|
    ensures |r| == |data|
  {
    var d := data[2 * c.pair := Assign(data[2 * c.pair], At(1, c.bit), At(LowBit(g), c.bit))];
    d[2 * c.pair + 1 := Assign(data[2 * c.pair + 1], At(1, c.bit), At(HighBit(g), c.bit))]
  }

  function MarkAll(data: seq<bv64>, cells: seq<Cell>, g: nat): (r: seq<bv64>)
    requires forall n :: 0 <= n < |cells| ==> Within(cells[n], data)
    ensures |r| == |data|
  {
    if cells == [] then data else
    assert Within(cells[|cells| - 1], data);
    Marked(MarkAll(data, cells[..|cells| - 1], g), cells[|cells| - 1], g)
  }

  function NextGeneration(g: nat): nat { if g + 1 == 4 then 1 else g + 1 }

  function Reset(f: Filter): Filter {
    Filter(f.perGeneration, 0, 1, seq(|f.data|, _ => 0))
  }

  function Insert(h: Hashes, f: Filter, key: Key): Filter
    requires |f.data| > 0 && |f.data| % 2 == 0
  {
    var full := f.thisGeneration == f.perGeneration;
    var g := if full then NextGeneration(f.generation) else f.generation;
    var d := if full then Wiped(f.data, g) else f.data;
    Filter(f.perGeneration, (if full then 0 else f.thisGeneration) + 1, g, MarkAll(d, CellsOf(h, key, |d|), g))
  }

  predicate Contains(h: Hashes, f: Filter, key: Key)
    requires |f.data| > 0 && |f.data| % 2 == 0
  {
    forall n | 0 <= n < h.count :: Tag(f.data, CellOf(h.hash(n, key), |f.data|)) != 0
  }

  // ---------------------------------------------------------------- what the steps do to tags

  lemma MaskBits(g: nat)
    ensures (LowMask(g) == 0 || LowMask(g) == ONES) && (LowMask(g) == ONES) == (g % 2 == 1)
    ensures (HighMask(g) == 0 || HighMask(g) == ONES) && (HighMask(g) == ONES) == (g / 2 == 1)
  {
  }

  lemma WipedAt(data: seq<bv64>, g: nat, pair: nat)
    requires |data| % 2 == 0 && 2 * pair + 1 < |data|
    ensures var p1, p2 := data[2 * pair], data[2 * pair + 1];
            var mask := KeepMask(p1, p2, LowMask(g), HighMask(g));
            Wiped(data, g)[2 * pair] == Kept(p1, mask) && Wiped(data, g)[2 * pair + 1] == Kept(p2, mask)
  {
    hide KeepMask, Kept, LowMask, HighMask;
    assert Wiped(data, g)[2 * pair] == WipedWord(data, g, 2 * pair);
    assert Wiped(data, g)[2 * pair + 1] == WipedWord(data, g, 2 * pair + 1);
    hide Wiped;
    assert (2 * pair) % 2 == 0 && (2 * pair + 1) % 2 == 1;
  }

  /** The masked wipe clears exactly the cells of the given generation. */
  lemma TagWiped(data: seq<bv64>, g: nat, c: Cell)
    requires |data| % 2 == 0 && Within(c, data) && 1 <= g <= 3
    ensures Tag(Wiped(data, g), c) == if Tag(data, c) == g then 0 else Tag(data, c)
  {
    MaskBits(g);
    hide One, Wiped, KeepMask, Kept, LowMask, HighMask;
    WipedAt(data, g, c.pair);
    OneKept(data[2 * c.pair], data[2 * c.pair + 1], LowMask(g), HighMask(g), c.bit);
  }

  lemma OneWritten(w: bv64, g: bv64, b: bv64, k: bv64)
    requires b < 64 && k < 64 && (g == 0 || g == 1)
    ensures One(Assign(w, At(1, b), At(g, b)), k) == if k == b then g == 1 else One(w, k)
  {
    hide *;
    OneAssign(w, At(1, b), At(g, b), k);
    OneAt(1, b, k);
    OneAt(g, b, k);
  }

  lemma TagMarked(data: seq<bv64>, c: Cell, g: nat, c': Cell)
    requires Within(c, data) && Within(c', data) && 1 <= g <= 3
    ensures Tag(Marked(data, c, g), c') == if c' == c then g else Tag(data, c')
  {
    hide One, At, Assign;
    OneWritten(data[2 * c.pair], LowBit(g), c.bit, c'.bit);
    OneWritten(data[2 * c.pair + 1], HighBit(g), c.bit, c'.bit);
  }

  lemma {:induction false} TagMarkAll(data: seq<bv64>, cells: seq<Cell>, g: nat, c: Cell)
    requires (forall n :: 0 <= n < |cells| ==> Within(cells[n], data)) && Within(c, data) && 1 <= g <= 3
    ensures Tag(MarkAll(data, cells, g), c) == if c in cells then g else Tag(data, c)
  {
    if cells != [] {
      var rest, last := cells[..|cells| - 1], cells[|cells| - 1];
      assert cells == rest + [last];
      TagMarkAll(data, rest, g, c);
      TagMarked(MarkAll(data, rest, g), last, g, c);
    }
  }

  // ---------------------------------------------------------------- the sliding window

  /** A key that was inserted, with the running number of the generation it went into. */
  datatype Insertion = Insertion(key: Key, turn: nat)

  /** The number of the generation in its turn. */
  function TurnTag(turn: nat): nat { turn % 3 + 1 }

  /** The cells of an insertion still carry its tag or that of a later turn. */
  ghost predicate Shows(h: Hashes, data: seq<bv64>, ins: Insertion, turn: nat)
    requires Sized(data)
  {
    forall n :: 0 <= n < h.count ==> Recent(Tag(data, CellOf(h.hash(n, ins.key), |data|)), ins.turn, turn)
  }

  predicate Recent(tag: nat, from: nat, to: nat) {
    exists t | from <= t <= to :: tag == TurnTag(t)
  }

  /** A filter after a history of insertions, standing in its turn-th generation: every insertion
      of the last three generations shows. */
  ghost predicate Tracks(h: Hashes, f: Filter, history: seq<Insertion>, turn: nat) {
    && Sized(f.data) && f.perGeneration >= 1 && f.thisGeneration <= f.perGeneration
    && f.generation == TurnTag(turn)
    && |history| == turn * f.perGeneration + f.thisGeneration
    && Numbered(history, f.perGeneration, turn)
    && (forall i :: 0 <= i < |history| && history[i].turn + 2 >= turn ==> Shows(h, f.data, history[i], turn))
  }

  function Turn(f: Filter, turn: nat): nat {
    if f.thisGeneration == f.perGeneration then turn + 1 else turn
  }

  lemma ResetTracks(h: Hashes, f: Filter)
    requires Sized(f.data) && f.perGeneration >= 1
    ensures Tracks(h, Reset(f), [], 0)
  {
  }

  /** The planes when an insert has wiped what it must and is about to mark. */
  function Prepared(f: Filter): seq<bv64>
    requires |f.data| % 2 == 0
  {
    if f.thisGeneration == f.perGeneration then Wiped(f.data, NextGeneration(f.generation)) else f.data
  }

  /** An insert tags the key's cells with the generation it goes into, and clears no cell of the
      two generations before that. */
  lemma TagInserted(h: Hashes, f: Filter, key: Key, turn: nat, c: Cell)
    requires Sized(f.data) && f.generation == TurnTag(turn) && Within(c, f.data)
    ensures var w := Insert(h, f, key); var t := Turn(f, turn);
            && |w.data| == |f.data| && w.generation == TurnTag(t)
            && Tag(w.data, c) == (if c in CellsOf(h, key, |f.data|) then TurnTag(t)
                                  else if t != turn && Tag(f.data, c) == TurnTag(t) then 0 else Tag(f.data, c))
  {
    var w, t := Insert(h, f, key), Turn(f, turn);
    assert w.generation == TurnTag(t);
    if t != turn { TagWiped(f.data, TurnTag(t), c); }
    hide Tag, Wiped, One, CellOf;
    var cells := CellsOf(h, key, |f.data|);
    assert forall n :: 0 <= n < |cells| ==> Within(cells[n], Prepared(f));
    TagMarkAll(Prepared(f), cells, TurnTag(t), c);
    hide MarkAll, CellsOf;
  }

  lemma RecentStays(tag: nat, tag': nat, from: nat, turn: nat, t: nat)
    requires Recent(tag, from, turn) && turn <= t <= from + 2
    requires tag' == TurnTag(t) || (tag' == tag && (t == turn || tag != TurnTag(t))) || (t == turn + 1 && tag == TurnTag(t) && tag' == 0)
    ensures Recent(tag', from, t)
  {
    var at :| from <= at <= turn && tag == TurnTag(at);
    assert from <= at <= t && from <= t <= t;
  }

  lemma StillShows(h: Hashes, f: Filter, ins: Insertion, turn: nat, key: Key)
    requires Sized(f.data) && f.generation == TurnTag(turn) && ins.turn <= turn
    requires ins.turn + 2 >= Turn(f, turn) && Shows(h, f.data, ins, turn)
    ensures Sized(Insert(h, f, key).data) && Shows(h, Insert(h, f, key).data, ins, Turn(f, turn))
  {
    TagInserted(h, f, key, turn, Cell(0, 0));
    var w, t := Insert(h, f, key), Turn(f, turn);
    hide Insert, Tag, CellOf, CellsOf, TurnTag, Recent;
    forall n | 0 <= n < h.count
      ensures Recent(Tag(w.data, CellOf(h.hash(n, ins.key), |w.data|)), ins.turn, t)
    {
      var c := CellOf(h.hash(n, ins.key), |f.data|);
      TagInserted(h, f, key, turn, c);
      RecentStays(Tag(f.data, c), Tag(w.data, c), ins.turn, turn, t);
    }
  }

  /** The key just inserted shows. */
  lemma NewShows(h: Hashes, f: Filter, turn: nat, key: Key)
    requires Sized(f.data) && f.generation == TurnTag(turn)
    ensures Sized(Insert(h, f, key).data)
    ensures Shows(h, Insert(h, f, key).data, Insertion(key, Turn(f, turn)), Turn(f, turn))
  {
    TagInserted(h, f, key, turn, Cell(0, 0));
    var w, t := Insert(h, f, key), Turn(f, turn);
    var cells := CellsOf(h, key, |f.data|);
    hide Insert, Tag, CellOf, TurnTag, CellsOf;
    forall n | 0 <= n < h.count
      ensures Recent(Tag(w.data, CellOf(h.hash(n, key), |w.data|)), t, t)
    {
      assert cells[n] == CellOf(h.hash(n, key), |f.data|) && cells[n] in cells;
      TagInserted(h, f, key, turn, cells[n]);
    }
  }

  /** Insertions are numbered through, generation by generation. */
  ghost predicate Numbered(history: seq<Insertion>, per: nat, turn: nat) {
    forall i :: 0 <= i < |history| ==>
      history[i].turn <= turn && history[i].turn * per <= i < (history[i].turn + 1) * per
  }

  lemma NumberedMore(history: seq<Insertion>, per: nat, turn: nat, t: nat, key: Key)
    requires Numbered(history, per, turn) && turn <= t && t * per <= |history| < (t + 1) * per
    ensures Numbered(history + [Insertion(key, t)], per, t)
  {
  }

  lemma AllShow(h: Hashes, f: Filter, history: seq<Insertion>, turn: nat, key: Key)
    requires Tracks(h, f, history, turn)
    ensures var w, t := Insert(h, f, key), Turn(f, turn); var history' := history + [Insertion(key, t)];
      Sized(w.data) && forall i :: 0 <= i < |history'| && history'[i].turn + 2 >= t ==> Shows(h, w.data, history'[i], t)
  {
    NewShows(h, f, turn, key);
    var w, t := Insert(h, f, key), Turn(f, turn);
    hide Shows, Insert;
    var history' := history + [Insertion(key, t)];
    forall i | 0 <= i < |history'| && history'[i].turn + 2 >= t ensures Shows(h, w.data, history'[i], t) {
      if i < |history| { StillShows(h, f, history[i], turn, key); }
    }
  }

  lemma NextTurn(h: Hashes, f: Filter, key: Key, turn: nat, n: nat)
    requires Sized(f.data) && f.perGeneration >= 1 && f.thisGeneration <= f.perGeneration && f.generation == TurnTag(turn)
    requires n == turn * f.perGeneration + f.thisGeneration
    ensures var w, t := Insert(h, f, key), Turn(f, turn);
      && turn <= t && t * f.perGeneration <= n < (t + 1) * f.perGeneration
      && w.perGeneration == f.perGeneration && w.thisGeneration <= w.perGeneration && n + 1 == t * w.perGeneration + w.thisGeneration
      && w.generation == TurnTag(t)
  {
    TurnBounds(turn, f.perGeneration, f.thisGeneration);
    hide MarkAll, Wiped, CellsOf;
  }

  lemma TurnBounds(turn: nat, per: nat, this_: nat)
    requires per >= 1 && this_ <= per
    ensures turn * per <= turn * per + this_ && (turn + 1) * per == turn * per + per && (turn + 2) * per == turn * per + 2 * per
  {
  }

  lemma InsertTracks(h: Hashes, f: Filter, history: seq<Insertion>, turn: nat, key: Key)
    requires Tracks(h, f, history, turn)
    ensures Tracks(h, Insert(h, f, key), history + [Insertion(key, Turn(f, turn))], Turn(f, turn))
  {
    hide Insert, Turn, Shows, Numbered, TurnTag;
    AllShow(h, f, history, turn, key);
    NextTurn(h, f, key, turn, |history|);
    NumberedMore(history, f.perGeneration, turn, Turn(f, turn), key);
  }

  /** The state and history after inserting a sequence of keys. */
  ghost function InsertAll(h: Hashes, f: Filter, history: seq<Insertion>, turn: nat, keys: seq<Key>): (Filter, seq<Insertion>, nat)
    requires Tracks(h, f, history, turn)
    decreases |keys|
  {
    if keys == [] then (f, history, turn) else
    InsertTracks(h, f, history, turn, keys[0]);
    InsertAll(h, Insert(h, f, keys[0]), history + [Insertion(keys[0], Turn(f, turn))], Turn(f, turn), keys[1..])
  }

  lemma {:induction false} InsertAllTracks(h: Hashes, f: Filter, history: seq<Insertion>, turn: nat, keys: seq<Key>)
    requires Tracks(h, f, history, turn)
    ensures var (w, hist, t) := InsertAll(h, f, history, turn, keys);
            Tracks(h, w, hist, t) && w.perGeneration == f.perGeneration && |hist| == |history| + |keys|
            && (forall i :: 0 <= i < |history| ==> hist[i] == history[i])
            && (forall i :: 0 <= i < |keys| ==> hist[|history| + i].key == keys[i])
    decreases |keys|
  {
    if keys != [] {
      InsertTracks(h, f, history, turn, keys[0]);
      var history' := history + [Insertion(keys[0], Turn(f, turn))];
      var w := Insert(h, f, keys[0]);
      hide Tracks, Insert;
      InsertAllTracks(h, w, history', Turn(f, turn), keys[1..]);
      var (_, hist, _) := InsertAll(h, f, history, turn, keys);
      assert hist[|history|] == history'[|history|];
      forall i | 0 <= i < |keys|
        ensures hist[|history| + i].key == keys[i]
      {
        if i > 0 { assert hist[|history'| + (i - 1)].key == keys[1..][i - 1]; }
      }
    }
  }

  // ---------------------------------------------------------------- exactly which cells are tagged

  /** One of a key's hashes leads to the cell: its low six bits give the bit, the others the pair of words. */
  ghost predicate Hits(h: Hashes, key: Key, size: nat, c: Cell)
    requires size > 0
  {
    exists n :: 0 <= n < h.count && LeadsTo(h.hash(n, key), size, c)
  }

  predicate LeadsTo(x: bv32, size: nat, c: Cell)
    requires size > 0
  {
    (x >> 6) as int % size / 2 == c.pair && (x & 0x3F) as bv64 == c.bit
  }

  /** The turn of the last insertion that hits the cell. */
  ghost function LastHit(h: Hashes, history: seq<Insertion>, size: nat, c: Cell): int
    requires size > 0
  {
    if history == [] then -1
    else
      var last := history[|history| - 1];
      if Hits(h, last.key, size, c) then last.turn else LastHit(h, history[..|history| - 1], size, c)
  }

  lemma {:induction false} LastHitBelow(h: Hashes, history: seq<Insertion>, size: nat, c: Cell, turn: nat)
    requires size > 0 && forall i :: 0 <= i < |history| ==> history[i].turn <= turn
    ensures -1 <= LastHit(h, history, size, c) <= turn
  {
    hide Hits;
    if history != [] { LastHitBelow(h, history[..|history| - 1], size, c, turn); }
  }

  /** The tag a cell should have. */
  ghost function TagDue(h: Hashes, history: seq<Insertion>, size: nat, turn: nat, c: Cell): nat
    requires size > 0
  {
    var t := LastHit(h, history, size, c);
    if t >= 0 && t + 2 >= turn then TurnTag(t) else 0
  }

  ghost predicate TagsExact(h: Hashes, f: Filter, history: seq<Insertion>, turn: nat) {
    Sized(f.data) && forall c :: Within(c, f.data) ==> Tag(f.data, c) == TagDue(h, history, |f.data|, turn, c)
  }

  lemma HitsIff(h: Hashes, key: Key, size: nat, c: Cell)
    requires size > 0 && size % 2 == 0
    ensures c in CellsOf(h, key, size) <==> Hits(h, key, size, c)
  {
    var cells := CellsOf(h, key, size);
    if c in cells {
      var n :| 0 <= n < |cells| && cells[n] == c;
      assert LeadsTo(h.hash(n, key), size, c);
    }
    if Hits(h, key, size, c) {
      var n :| 0 <= n < h.count && LeadsTo(h.hash(n, key), size, c);
      assert cells[n] == c;
    }
  }

  /** A generation later, the tags of three turns ago are the ones wiped. */
  lemma DueNext(last: int, turn: nat, tag: nat, t: nat)
    requires -1 <= last <= turn && (t == turn || t == turn + 1) && tag == if last >= 0 && last + 2 >= turn then TurnTag(last) else 0
    ensures (if t != turn && tag == TurnTag(t) then 0 else tag) == if last >= 0 && last + 2 >= t then TurnTag(last) else 0
  {
  }

  lemma TagsStep(h: Hashes, f: Filter, history: seq<Insertion>, turn: nat, key: Key, c: Cell)
    requires TagsExact(h, f, history, turn) && f.generation == TurnTag(turn) && Within(c, f.data)
    requires forall i :: 0 <= i < |history| ==> history[i].turn <= turn
    ensures var w, t := Insert(h, f, key), Turn(f, turn);
      |w.data| == |f.data| && Tag(w.data, c) == TagDue(h, history + [Insertion(key, t)], |f.data|, t, c)
  {
    var t := Turn(f, turn);
    TagInserted(h, f, key, turn, c);
    HitsIff(h, key, |f.data|, c);
    LastHitBelow(h, history, |f.data|, c, turn);
    assert Tag(f.data, c) == TagDue(h, history, |f.data|, turn, c);
    var more := history + [Insertion(key, t)];
    assert more[..|more| - 1] == history;
    assert LastHit(h, more, |f.data|, c) == if Hits(h, key, |f.data|, c) then t else LastHit(h, history, |f.data|, c);
    hide Insert, Tag, CellsOf, Hits, LastHit, TurnTag;
    DueNext(LastHit(h, history, |f.data|, c), turn, Tag(f.data, c), t);
  }

  lemma InsertExact(h: Hashes, f: Filter, history: seq<Insertion>, turn: nat, key: Key)
    requires Tracks(h, f, history, turn) && TagsExact(h, f, history, turn)
    ensures TagsExact(h, Insert(h, f, key), history + [Insertion(key, Turn(f, turn))], Turn(f, turn))
  {
    TagInserted(h, f, key, turn, Cell(0, 0));
    assert forall i :: 0 <= i < |history| ==> history[i].turn <= turn;
    var w, t := Insert(h, f, key), Turn(f, turn);
    hide Insert, Tag, TagDue, Tracks;
    forall c | Within(c, w.data) ensures Tag(w.data, c) == TagDue(h, history + [Insertion(key, t)], |w.data|, t, c) {
      TagsStep(h, f, history, turn, key, c);
    }
  }

  lemma {:induction false} InsertAllExact(h: Hashes, f: Filter, history: seq<Insertion>, turn: nat, keys: seq<Key>)
    requires Tracks(h, f, history, turn) && TagsExact(h, f, history, turn)
    ensures var r := InsertAll(h, f, history, turn, keys); TagsExact(h, r.0, r.1, r.2)
    decreases |keys|
  {
    if keys != [] {
      InsertTracks(h, f, history, turn, keys[0]);
      InsertExact(h, f, history, turn, keys[0]);
      hide Tracks, TagsExact, Insert, Turn;
      InsertAllExact(h, Insert(h, f, keys[0]), history + [Insertion(keys[0], Turn(f, turn))], Turn(f, turn), keys[1..]);
    }
  }

  lemma ZeroTag(data: seq<bv64>, c: Cell)
    requires Within(c, data) && data[2 * c.pair] == 0 && data[2 * c.pair + 1] == 0
    ensures Tag(data, c) == 0
  {
    ZeroBit(c.bit);
  }

  lemma ZeroBit(k: bv64)
    requires k < 64
    ensures !One(0, k)
  {
  }

  lemma ResetExact(h: Hashes, f: Filter)
    requires Sized(f.data)
    ensures TagsExact(h, Reset(f), [], 0)
  {
    var r := Reset(f);
    hide Tag;
    forall c | Within(c, r.data) ensures Tag(r.data, c) == 0 { ZeroTag(r.data, c); }
  }

  /** Some insertion of the last three generations hits the cell. */
  ghost predicate HitLately(h: Hashes, history: seq<Insertion>, size: nat, turn: nat, c: Cell)
    requires size > 0
  {
    exists i :: 0 <= i < |history| && history[i].turn + 2 >= turn && Hits(h, history[i].key, size, c)
  }

  lemma {:induction false} LastHitIff(h: Hashes, history: seq<Insertion>, size: nat, turn: nat, c: Cell)
    requires size > 0 && forall i, j :: 0 <= i <= j < |history| ==> history[i].turn <= history[j].turn
    ensures HitLately(h, history, size, turn, c) <==> LastHit(h, history, size, c) >= 0 && LastHit(h, history, size, c) + 2 >= turn
  {
    hide Hits;
    if history != [] {
      var rest, last := history[..|history| - 1], history[|history| - 1];
      LastHitIff(h, rest, size, turn, c);
      if Hits(h, last.key, size, c) {
        if last.turn + 2 >= turn { assert HitLately(h, history, size, turn, c); }
      } else {
        assert forall i :: 0 <= i < |rest| ==> rest[i] == history[i];
        assert HitLately(h, history, size, turn, c) <==> HitLately(h, rest, size, turn, c);
      }
    }
  }

  /** After any run of inserts on a reset filter a cell is tagged exactly if some key of the last three
      generations has a hash that leads to it. */
  lemma TaggedIff(h: Hashes, f: Filter, keys: seq<Key>, c: Cell)
    requires Sized(f.data) && f.perGeneration >= 1 && Within(c, f.data)
    ensures Tracks(h, Reset(f), [], 0)
    ensures var r := InsertAll(h, Reset(f), [], 0, keys);
      && |r.0.data| == |f.data| && |r.1| == |keys| && (forall i :: 0 <= i < |keys| ==> r.1[i].key == keys[i] && r.1[i].turn == i / f.perGeneration)
      && (Tag(r.0.data, c) != 0 <==> HitLately(h, r.1, |f.data|, r.2, c))
  {
    ResetTracks(h, f);
    ResetExact(h, f);
    InsertAllTracks(h, Reset(f), [], 0, keys);
    InsertAllExact(h, Reset(f), [], 0, keys);
    InsertAllSize(h, Reset(f), [], 0, keys);
    var (w, hist, turn) := InsertAll(h, Reset(f), [], 0, keys);
    assert Numbered(hist, f.perGeneration, turn) && |w.data| == |f.data|;
    hide Tracks, InsertAll, Tag, Reset, LastHit, HitLately;
    forall i | 0 <= i < |keys| ensures hist[i].key == keys[i] && hist[i].turn == i / f.perGeneration {
      assert hist[0 + i].key == keys[i];
      TurnIs(hist[i].turn, i, f.perGeneration);
    }
    forall i, j | 0 <= i <= j < |hist| ensures hist[i].turn <= hist[j].turn { DivMono(i, j, f.perGeneration); }
    LastHitIff(h, hist, |f.data|, turn, c);
  }

  lemma TurnIs(t: nat, i: nat, per: nat)
    requires per >= 1 && t * per <= i < (t + 1) * per
    ensures t == i / per
  {
    var q := i / per;
    assert q * per <= i < (q + 1) * per;
    if t < q { MulMono(t + 1, q, per); }
    if q < t { MulMono(q + 1, t, per); }
  }

  lemma DivMono(i: nat, j: nat, per: nat)
    requires i <= j && per >= 1
    ensures i / per <= j / per
  {
    if j / per < i / per { MulMono(j / per + 1, i / per, per); }
  }

  lemma {:induction false} InsertAllSize(h: Hashes, f: Filter, history: seq<Insertion>, turn: nat, keys: seq<Key>)
    requires Tracks(h, f, history, turn)
    ensures |InsertAll(h, f, history, turn, keys).0.data| == |f.data|
    decreases |keys|
  {
    if keys != [] {
      InsertTracks(h, f, history, turn, keys[0]);
      TagInserted(h, f, keys[0], turn, Cell(0, 0));
      hide Insert, Turn;
      InsertAllSize(h, Insert(h, f, keys[0]), history + [Insertion(keys[0], Turn(f, turn))], Turn(f, turn), keys[1..]);
    }
  }

  /** A key is found exactly if each of its cells is hit by some key of the last three generations. */
  lemma ContainsIff(h: Hashes, f: Filter, keys: seq<Key>, key: Key)
    requires Sized(f.data) && f.perGeneration >= 1
    ensures Tracks(h, Reset(f), [], 0)
    ensures var r := InsertAll(h, Reset(f), [], 0, keys);
      && |r.0.data| == |f.data| && Sized(r.0.data)
      && (Contains(h, r.0, key) <==> forall c :: Within(c, f.data) && Hits(h, key, |f.data|, c) ==> HitLately(h, r.1, |f.data|, r.2, c))
  {
    var none := Cell(0, 0);
    TaggedIff(h, f, keys, none);
    var (w, hist, turn) := InsertAll(h, Reset(f), [], 0, keys);
    hide InsertAll, Tracks, Reset, Tag, HitLately, Hits, CellOf, CellsOf;
    forall c | Within(c, f.data) ensures Tag(w.data, c) != 0 <==> HitLately(h, hist, |f.data|, turn, c) { TaggedIff(h, f, keys, c); }
    var cells := CellsOf(h, key, |f.data|);
    forall c ensures c in cells <==> Hits(h, key, |f.data|, c) { HitsIff(h, key, |f.data|, c); }
    forall n | 0 <= n < h.count ensures Within(CellOf(h.hash(n, key), |f.data|), f.data) && CellOf(h.hash(n, key), |f.data|) in cells {
      assert cells[n] == CellOf(h.hash(n, key), |f.data|);
    }
  }

  /** An insertion within the window is in one of the last three generations. */
  lemma WindowTurn(e: nat, turn: nat, i: int, per: nat)
    requires i < (e + 1) * per && i >= turn * per - 2 * per
    ensures e + 2 >= turn
  {
    assert (e + 3) * per == (e + 1) * per + 2 * per;
    if e + 3 <= turn { MulMono(e + 3, turn, per); }
  }

  /** Main theorem.  After any run of inserts on a reset filter, every one of the last
      2 * nEntriesPerGeneration + nEntriesThisGeneration inserted keys is contained. */
  lemma NoFalseNegatives(h: Hashes, f: Filter, keys: seq<Key>, i: nat)
    requires Sized(f.data) && f.perGeneration >= 1 && i < |keys|
    ensures Tracks(h, Reset(f), [], 0)
    ensures var w := InsertAll(h, Reset(f), [], 0, keys).0;
            && |w.data| > 0 && |w.data| % 2 == 0
            && (i >= |keys| - (2 * w.perGeneration + w.thisGeneration) ==> Contains(h, w, keys[i]))
  {
    ResetTracks(h, f);
    InsertAllTracks(h, Reset(f), [], 0, keys);
    var (w, hist, t) := InsertAll(h, Reset(f), [], 0, keys);
    if i >= |keys| - (2 * w.perGeneration + w.thisGeneration) {
      assert hist[0 + i].key == keys[i];
      WindowTurn(hist[i].turn, t, i, w.perGeneration);
      assert Shows(h, w.data, hist[i], t);
      forall n | 0 <= n < h.count
        ensures Tag(w.data, CellOf(h.hash(n, keys[i]), |w.data|)) != 0
      {
        assert Recent(Tag(w.data, CellOf(h.hash(n, hist[i].key), |w.data|)), hist[i].turn, t);
      }
    }
  }

  /** A filter built for nElements keeps (nElements + 1) / 2 keys per generation, so it never
      forgets any of the last nElements. */
  lemma LastElementsKept(h: Hashes, f: Filter, nElements: nat, keys: seq<Key>, i: nat)
    requires Sized(f.data) && nElements >= 1 && f.perGeneration == (nElements + 1) / 2
    requires i < |keys| && i + nElements >= |keys|
    ensures Tracks(h, Reset(f), [], 0)
    ensures var w := InsertAll(h, Reset(f), [], 0, keys).0;
            |w.data| > 0 && |w.data| % 2 == 0 && Contains(h, w, keys[i])
  {
    ResetTracks(h, f);
    InsertAllTracks(h, Reset(f), [], 0, keys);
    NoFalseNegatives(h, f, keys, i);
  }
}

/** The filter object, changed in place; each method is proved against the function of the same
    name in module `Bloom`. */
module RollingBloom {
  import opened Bloom

  class RollingBloomFilter {
    var h: Hashes
    const data: array<bv64>
    const nEntriesPerGeneration: nat
    var nEntriesThisGeneration: nat
    var nGeneration: nat

    ghost predicate Shaped() {
      data.Length > 0 && data.Length % 2 == 0
    }

    function Value(): Filter
      reads this, data
    {
      Filter(nEntriesPerGeneration, nEntriesThisGeneration, nGeneration, data[..])
    }

    /** The number of words follows from the wanted error rate and is a parameter here. */
    constructor (h: Hashes, nElements: nat, pairs: nat)
      requires pairs > 0
      ensures Shaped() && this.h == h && fresh(data) && nEntriesPerGeneration == (nElements + 1) / 2
      ensures Value() == Bloom.Reset(Value())
    {
      this.h := h;
      data := new bv64[2 * pairs](_ => 0);
      nEntriesPerGeneration := (nElements + 1) / 2;
      nEntriesThisGeneration := 0;
      nGeneration := 1;
      new;
      assert data[..] == seq(|data[..]|, _ => 0);
    }

    method Wipe()
      requires Shaped()
      modifies data
      ensures data[..] == Wiped(old(data[..]), nGeneration)
    {
      hide KeepMask, Kept, LowMask, HighMask;
      var m1, m2 := LowMask(nGeneration), HighMask(nGeneration);
      ghost var d := data[..];
      var p := 0;
      while p < data.Length
        invariant p % 2 == 0 && p <= data.Length
        invariant forall i :: 0 <= i < p ==> data[i] == WipedWord(d, nGeneration, i)
        invariant forall i :: p <= i < data.Length ==> data[i] == d[i]
      {
        var p1, p2 := data[p], data[p + 1];
        var mask := KeepMask(p1, p2, m1, m2);
        data[p] := Kept(p1, mask);
        data[p + 1] := Kept(p2, mask);
        assert (p + 1) % 2 == 1;
        p := p + 2;
      }
      assert forall i :: 0 <= i < data.Length ==> data[..][i] == Wiped(d, nGeneration)[i];
    }

    method Mark(vKey: Key)
      requires Shaped()
      modifies data
      ensures data[..] == MarkAll(old(data[..]), CellsOf(h, vKey, data.Length), nGeneration)
    {
      ghost var d := data[..];
      ghost var cells := CellsOf(h, vKey, data.Length);
      hide Assign, At, CellOf, CellsOf;
      for n := 0 to h.count
        invariant data[..] == MarkAll(d, cells[..n], nGeneration)
      {
        var c := CellOf(h.hash(n, vKey), data.Length);
        assert cells[..n + 1][..n] == cells[..n] && cells[..n + 1][n] == c;
        data[2 * c.pair] := Assign(data[2 * c.pair], At(1, c.bit), At(LowBit(nGeneration), c.bit));
        data[2 * c.pair + 1] := Assign(data[2 * c.pair + 1], At(1, c.bit), At(HighBit(nGeneration), c.bit));
      }
      assert cells[..h.count] == cells;
    }

    method Insert(vKey: Key)
      requires Shaped()
      modifies this, data
      ensures Value() == Bloom.Insert(h, old(Value()), vKey) && h == old(h)
    {
      hide Wiped, MarkAll, CellsOf;
      if nEntriesThisGeneration == nEntriesPerGeneration {
        nEntriesThisGeneration := 0;
        nGeneration := nGeneration + 1;
        if nGeneration == 4 { nGeneration := 1; }
        Wipe();
      }
      nEntriesThisGeneration := nEntriesThisGeneration + 1;
      Mark(vKey);
    }

    method Contains(vKey: Key) returns (r: bool)
      requires Shaped()
      ensures r == Bloom.Contains(h, Value(), vKey)
    {
      hide CellOf, One;
      for n := 0 to h.count
        invariant forall m :: 0 <= m < n ==> Tag(data[..], CellOf(h.hash(m, vKey), data.Length)) != 0
      {
        var c := CellOf(h.hash(n, vKey), data.Length);
        OneEither(data[2 * c.pair], data[2 * c.pair + 1], c.bit);
        if ((data[2 * c.pair] | data[2 * c.pair + 1]) >> c.bit) & 1 == 0 { return false; }
      }
      return true;
    }

    /** Clears the filter and draws a new tweak. */
    method Reset(tweaked: Hashes)
      requires Shaped()
      modifies this, data
      ensures Value() == Bloom.Reset(old(Value())) && h == tweaked
    {
      h := tweaked;
      nEntriesThisGeneration := 0;
      nGeneration := 1;
      for i := 0 to data.Length
        invariant h == tweaked && nEntriesThisGeneration == 0 && nGeneration == 1
        invariant forall j :: 0 <= j < i ==> data[j] == 0
      {
        data[i] := 0;
      }
      assert data[..] == seq(data.Length, _ => 0);
    }
  }
}
