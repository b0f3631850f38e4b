/** Partial Merkle trees (the "Partial Merkle branch format" of BIP 37): an encoder and a decoder
    for an authenticated subset of a block's transactions.

    The pair hash is a parameter.  Encoding and decoding walk the tree depth first; the functions
    here give the bits and hashes a walk writes and what a walk reads back. */
module Merkle {

  import opened Basics

  /** A 256-bit hash; zero is the null hash that reports failure. */
  type Hash = nat

  type Pair = (Hash, Hash) -> Hash

  ghost predicate Injective(h: Pair) {
    forall a, b, c, d :: h(a, b) == h(c, d) ==> a == c && b == d
  }

  // ---------------------------------------------------------------- shape of the tree

  /** Number of nodes at a height of the tree over n leaves. */
  function Width(n: nat, height: nat): nat {
    (n + Two(height) - 1) / Two(height)
  }

  lemma DivBounds(a: nat, p: nat)
    requires p > 0
    ensures a / p * p <= a < a / p * p + p
  {
  }

  /** Width is the least w with w * 2^height >= n. */
  lemma WidthBounds(n: nat, height: nat)
    ensures n <= Width(n, height) * Two(height) < n + Two(height)
  {
    DivBounds(n + Two(height) - 1, Two(height));
  }

  lemma MulLe(a: nat, b: nat, p: nat)
    requires a * p < (b + 1) * p
    ensures a <= b
  {
    if b + 1 <= a { MulMono(b + 1, a, p); }
  }

  lemma Halve(n: nat, p: nat, w: nat, u: nat)
    requires n <= w * p < n + p && n <= u * (2 * p) < n + 2 * p
    ensures u == (w + 1) / 2
  {
    assert u * (2 * p) == (2 * u) * p;
    assert (2 * u + 1) * p == (2 * u) * p + p;
    MulLe(w, 2 * u, p);
    assert (w + 2) * p == w * p + 2 * p;
    MulLe(2 * u, w + 1, p);
  }

  /** A level has half the nodes of the one below it, rounded up. */
  lemma WidthHalves(n: nat, height: nat)
    ensures Width(n, height + 1) == (Width(n, height) + 1) / 2
  {
    WidthBounds(n, height);
    WidthBounds(n, height + 1);
    hide Width;
    Halve(n, Two(height), Width(n, height), Width(n, height + 1));
  }

  /** Every node above the leaves has a left child. */
  lemma LeftChild(n: nat, height: nat, pos: nat)
    requires height > 0 && pos < Width(n, height)
    ensures 2 * pos < Width(n, height - 1)
    ensures 2 * pos + 1 >= Width(n, height - 1) ==> Width(n, height - 1) == 2 * pos + 1
  {
    WidthHalves(n, height - 1);
  }

  // ---------------------------------------------------------------- hashes of nodes

  function CalcHash(h: Pair, tx: seq<Hash>, height: nat, pos: nat): Hash
    requires pos < Width(|tx|, height)
  {
    if height == 0 then tx[pos] else
    LeftChild(|tx|, height, pos);
    var left := CalcHash(h, tx, height - 1, 2 * pos);
    var right := if 2 * pos + 1 < Width(|tx|, height - 1) then CalcHash(h, tx, height - 1, 2 * pos + 1) else left;
    h(left, right)
  }

  /** Height of the tree: the first level with at most one node. */
  function TreeHeight(n: nat, from: nat := 0): nat
    decreases Width(n, from)
  {
    if Width(n, from) <= 1 then from else
    WidthHalves(n, from);
    TreeHeight(n, from + 1)
  }

  lemma {:induction false} RootExists(n: nat, from: nat)
    requires n > 0
    ensures Width(n, TreeHeight(n, from)) == 1 && TreeHeight(n, from) >= from
    decreases Width(n, from)
  {
    WidthBounds(n, from);
    if Width(n, from) > 1 {
      WidthHalves(n, from);
      RootExists(n, from + 1);
    }
  }

  function Root(h: Pair, tx: seq<Hash>): Hash
    requires |tx| > 0
  {
    RootExists(|tx|, 0);
    CalcHash(h, tx, TreeHeight(|tx|), 0)
  }

  // ---------------------------------------------------------------- encoding

  /** Leaves below a node: from First up to, and not including, Last. */
  function First(height: nat, pos: nat): nat { pos * Two(height) }

  function Last(n: nat, height: nat, pos: nat): nat {
    var l := (pos + 1) * Two(height);
    if l < n then l else n
  }

  predicate AnyMatch(mask: seq<bool>, lo: nat, hi: nat) {
    exists p :: lo <= p < hi && p < |mask| && mask[p]
  }

  datatype Code = Code(bits: seq<bool>, hashes: seq<Hash>)

  function Join(a: Code, b: Code): Code { Code(a.bits + b.bits, a.hashes + b.hashes) }

  function Build(h: Pair, tx: seq<Hash>, mask: seq<bool>, height: nat, pos: nat): Code
    requires pos < Width(|tx|, height) && |mask| == |tx|
  {
    var parent := AnyMatch(mask, First(height, pos), Last(|tx|, height, pos));
    if height == 0 || !parent then Code([parent], [CalcHash(h, tx, height, pos)]) else
    LeftChild(|tx|, height, pos);
    var left := Build(h, tx, mask, height - 1, 2 * pos);
    var below := if 2 * pos + 1 < Width(|tx|, height - 1)
                 then Join(left, Build(h, tx, mask, height - 1, 2 * pos + 1)) else left;
    Join(Code([true], []), below)
  }

  // ---------------------------------------------------------------- decoding

  datatype Match = Match(index: nat, txid: Hash)

  /** What a walk returns: the node's hash, the bits and hashes used so far, whether bad data was
      met, and the matches found. */
  datatype Walk = Walk(hash: Hash, bitsUsed: nat, hashUsed: nat, bad: bool, found: seq<Match>)

  function Extract(h: Pair, n: nat, c: Code, height: nat, pos: nat, bitsUsed: nat, hashUsed: nat): Walk {
    if bitsUsed >= |c.bits| then Walk(0, bitsUsed, hashUsed, true, []) else
    var parent := c.bits[bitsUsed];
    if height == 0 || !parent then
      if hashUsed >= |c.hashes| then Walk(0, bitsUsed + 1, hashUsed, true, [])
      else
        var hash := c.hashes[hashUsed];
        Walk(hash, bitsUsed + 1, hashUsed + 1, false, if height == 0 && parent then [Match(pos, hash)] else [])
    else
      var left := Extract(h, n, c, height - 1, 2 * pos, bitsUsed + 1, hashUsed);
      if 2 * pos + 1 < Width(n, height - 1) then
        var right := Extract(h, n, c, height - 1, 2 * pos + 1, left.bitsUsed, left.hashUsed);
        Walk(h(left.hash, right.hash), right.bitsUsed, right.hashUsed,
             left.bad || right.bad || right.hash == left.hash, left.found + right.found)
      else left.(hash := h(left.hash, left.hash))
  }

  /** The root and the matches, or the null hash if the data is refused. */
  function ExtractMatches(h: Pair, n: nat, c: Code): (Hash, seq<Match>) {
    if n == 0 || |c.hashes| > n || |c.bits| < |c.hashes| then (0, []) else
    var w := Extract(h, n, c, TreeHeight(n), 0, 0, 0);
    if w.bad || (w.bitsUsed + 7) / 8 != (|c.bits| + 7) / 8 || w.hashUsed != |c.hashes| then (0, w.found)
    else (w.hash, w.found)
  }

  // ---------------------------------------------------------------- soundness

  /** Every match is the transaction at its index. */
  ghost predicate Genuine(found: seq<Match>, tx: seq<Hash>) {
    forall k :: 0 <= k < |found| ==> found[k].index < |tx| && tx[found[k].index] == found[k].txid
  }

  lemma GenuineJoin(a: seq<Match>, b: seq<Match>, tx: seq<Hash>)
    requires Genuine(a, tx) && Genuine(b, tx)
    ensures Genuine(a + b, tx)
  {
  }

  lemma Inject(h: Pair, a: Hash, b: Hash, c: Hash, d: Hash)
    requires Injective(h) && h(a, b) == h(c, d)
    ensures a == c && b == d
  {
  }

  /** A node above a match in both walks: the hash of its children, and what they found. */
  lemma NodeHashes(h: Pair, tx: seq<Hash>, c: Code, height: nat, pos: nat, b: nat, k: nat)
    requires height > 0 && pos < Width(|tx|, height) && 2 * pos < Width(|tx|, height - 1) && b < |c.bits| && c.bits[b]
    ensures var left := Extract(h, |tx|, c, height - 1, 2 * pos, b + 1, k);
            var two := 2 * pos + 1 < Width(|tx|, height - 1);
            var right := if two then Extract(h, |tx|, c, height - 1, 2 * pos + 1, left.bitsUsed, left.hashUsed) else left;
            var l := CalcHash(h, tx, height - 1, 2 * pos);
            && Extract(h, |tx|, c, height, pos, b, k).hash == h(left.hash, right.hash)
            && CalcHash(h, tx, height, pos) == h(l, if two then CalcHash(h, tx, height - 1, 2 * pos + 1) else l)
            && Extract(h, |tx|, c, height, pos, b, k).found == if two then left.found + right.found else left.found
  {
    hide Width;
  }

  lemma SoundLeaf(h: Pair, tx: seq<Hash>, c: Code, height: nat, pos: nat, b: nat, k: nat)
    requires pos < Width(|tx|, height) && (b >= |c.bits| || height == 0 || !c.bits[b])
    requires Extract(h, |tx|, c, height, pos, b, k).hash == CalcHash(h, tx, height, pos)
    ensures Genuine(Extract(h, |tx|, c, height, pos, b, k).found, tx)
  {
    if height == 0 { WidthBounds(|tx|, 0); }
  }

  lemma {:induction false} ExtractSound(h: Pair, tx: seq<Hash>, c: Code, height: nat, pos: nat, b: nat, k: nat)
    requires Injective(h) && pos < Width(|tx|, height)
    requires Extract(h, |tx|, c, height, pos, b, k).hash == CalcHash(h, tx, height, pos)
    ensures Genuine(Extract(h, |tx|, c, height, pos, b, k).found, tx)
  {
    hide *;
    if b >= |c.bits| || height == 0 || !c.bits[b] {
      SoundLeaf(h, tx, c, height, pos, b, k);
    } else {
      LeftChild(|tx|, height, pos);
      NodeHashes(h, tx, c, height, pos, b, k);
      var left := Extract(h, |tx|, c, height - 1, 2 * pos, b + 1, k);
      var l := CalcHash(h, tx, height - 1, 2 * pos);
      if 2 * pos + 1 < Width(|tx|, height - 1) {
        var right := Extract(h, |tx|, c, height - 1, 2 * pos + 1, left.bitsUsed, left.hashUsed);
        Inject(h, left.hash, right.hash, l, CalcHash(h, tx, height - 1, 2 * pos + 1));
        ExtractSound(h, tx, c, height - 1, 2 * pos, b + 1, k);
        ExtractSound(h, tx, c, height - 1, 2 * pos + 1, left.bitsUsed, left.hashUsed);
        GenuineJoin(left.found, right.found, tx);
      } else {
        Inject(h, left.hash, left.hash, l, l);
        ExtractSound(h, tx, c, height - 1, 2 * pos, b + 1, k);
      }
    }
  }

  /** Main theorem, soundness.  For arbitrary bits and hashes: if decoding yields the true root,
      every match it reports is a transaction of the block at the reported index. */
  lemma MatchesSound(h: Pair, tx: seq<Hash>, c: Code)
    requires Injective(h) && |tx| > 0 && Root(h, tx) != 0
    requires ExtractMatches(h, |tx|, c).0 == Root(h, tx)
    ensures Genuine(ExtractMatches(h, |tx|, c).1, tx)
  {
    RootExists(|tx|, 0);
    ExtractSound(h, tx, c, TreeHeight(|tx|), 0, 0, 0);
  }

  // ---------------------------------------------------------------- leaves below a node

  /** The leaves of a node are those of its children, left first. */
  lemma LeafRange(n: nat, height: nat, pos: nat)
    requires pos < Width(n, height)
    ensures First(height, pos) < Last(n, height, pos) <= n
    ensures height == 0 ==> First(height, pos) == pos && Last(n, height, pos) == pos + 1
    ensures height > 0 ==> 2 * pos < Width(n, height - 1) && First(height, pos) == First(height - 1, 2 * pos)
    ensures height > 0 && 2 * pos + 1 < Width(n, height - 1) ==>
              && Last(n, height - 1, 2 * pos) == First(height - 1, 2 * pos + 1)
              && Last(n, height - 1, 2 * pos + 1) == Last(n, height, pos)
    ensures height > 0 && 2 * pos + 1 >= Width(n, height - 1) ==> Last(n, height - 1, 2 * pos) == Last(n, height, pos)
  {
    NodeStarts(n, height, pos);
    assert (pos + 1) * Two(height) == pos * Two(height) + Two(height);
    if height > 0 {
      LeftChild(n, height, pos);
      var p := Two(height - 1);
      assert Two(height) == 2 * p;
      assert pos * (2 * p) == (2 * pos) * p;
      assert (2 * pos + 1) * p == (2 * pos) * p + p;
      assert (2 * pos + 2) * p == (2 * pos) * p + 2 * p;
      if 2 * pos + 1 < Width(n, height - 1) {
        NodeStarts(n, height - 1, 2 * pos + 1);
      } else {
        WidthBounds(n, height - 1);
      }
    }
  }

  lemma NodeStarts(n: nat, height: nat, pos: nat)
    requires pos < Width(n, height)
    ensures pos * Two(height) < n
  {
    WidthBounds(n, height);
    var p := Two(height);
    MulMono(pos + 1, Width(n, height), p);
    assert (pos + 1) * p == pos * p + p;
  }

  // ---------------------------------------------------------------- round trip

  /** The matched transactions with indices from lo up to hi, in order. */
  function Matched(tx: seq<Hash>, mask: seq<bool>, lo: nat, hi: nat): seq<Match>
    requires lo <= hi <= |tx| == |mask|
    decreases hi - lo
  {
    if lo == hi then [] else
    (if mask[lo] then [Match(lo, tx[lo])] else []) + Matched(tx, mask, lo + 1, hi)
  }

  lemma {:induction false} MatchedSplit(tx: seq<Hash>, mask: seq<bool>, lo: nat, mid: nat, hi: nat)
    requires lo <= mid <= hi <= |tx| == |mask|
    ensures Matched(tx, mask, lo, hi) == Matched(tx, mask, lo, mid) + Matched(tx, mask, mid, hi)
    decreases mid - lo
  {
    if lo < mid { MatchedSplit(tx, mask, lo + 1, mid, hi); }
  }

  lemma {:induction false} MatchedNone(tx: seq<Hash>, mask: seq<bool>, lo: nat, hi: nat)
    requires lo <= hi <= |tx| == |mask| && !AnyMatch(mask, lo, hi)
    ensures Matched(tx, mask, lo, hi) == []
    decreases hi - lo
  {
    if lo < hi { MatchedNone(tx, mask, lo + 1, hi); }
  }

  /** Different nodes of a level have different hashes. */
  lemma {:induction false} NodesDiffer(h: Pair, tx: seq<Hash>, height: nat, p: nat, q: nat)
    requires Injective(h) && Distinct(tx) && p != q && p < Width(|tx|, height) && q < Width(|tx|, height)
    ensures CalcHash(h, tx, height, p) != CalcHash(h, tx, height, q)
  {
    if height == 0 {
      WidthBounds(|tx|, 0);
    } else {
      LeftChild(|tx|, height, p);
      LeftChild(|tx|, height, q);
      NodesDiffer(h, tx, height - 1, 2 * p, 2 * q);
    }
  }

  /** A code sits in a longer one at given offsets. */
  ghost predicate Sits(part: Code, whole: Code, b: nat, k: nat) {
    && b + |part.bits| <= |whole.bits| && k + |part.hashes| <= |whole.hashes|
    && whole.bits[b..b + |part.bits|] == part.bits && whole.hashes[k..k + |part.hashes|] == part.hashes
  }

  lemma SitsLeft(x: Code, y: Code, whole: Code, b: nat, k: nat)
    requires Sits(Join(x, y), whole, b, k)
    ensures Sits(x, whole, b, k) && Sits(y, whole, b + |x.bits|, k + |x.hashes|)
  {
    assert x.bits == Join(x, y).bits[..|x.bits|] && y.bits == Join(x, y).bits[|x.bits|..];
    assert x.hashes == Join(x, y).hashes[..|x.hashes|] && y.hashes == Join(x, y).hashes[|x.hashes|..];
  }

  /** Reading a node's code at given offsets gives back the node's hash and its matches. */
  ghost predicate Reads(h: Pair, tx: seq<Hash>, mask: seq<bool>, height: nat, pos: nat, c: Code, b: nat, k: nat)
    requires |mask| == |tx| && pos < Width(|tx|, height)
  {
    var e := Build(h, tx, mask, height, pos);
    var lo, hi := First(height, pos), Last(|tx|, height, pos);
    && lo <= hi <= |tx|
    && Extract(h, |tx|, c, height, pos, b, k) ==
       Walk(CalcHash(h, tx, height, pos), b + |e.bits|, k + |e.hashes|, false, Matched(tx, mask, lo, hi))
  }

  /** The code of a node above a match: a bit, then the codes of its children. */
  lemma SitsChildren(h: Pair, tx: seq<Hash>, mask: seq<bool>, height: nat, pos: nat, c: Code, b: nat, k: nat)
    requires height > 0 && |mask| == |tx| && pos < Width(|tx|, height)
    requires AnyMatch(mask, First(height, pos), Last(|tx|, height, pos))
    requires Sits(Build(h, tx, mask, height, pos), c, b, k)
    ensures 2 * pos < Width(|tx|, height - 1)
    ensures var left := Build(h, tx, mask, height - 1, 2 * pos);
            && Sits(Code([true], []), c, b, k) && Sits(left, c, b + 1, k)
            && (2 * pos + 1 < Width(|tx|, height - 1) ==>
                  Sits(Build(h, tx, mask, height - 1, 2 * pos + 1), c, b + 1 + |left.bits|, k + |left.hashes|))
  {
    hide *;
    LeftChild(|tx|, height, pos);
    BuildNode(h, tx, mask, height, pos);
    BelowIs(h, tx, mask, height, pos);
    var left := Build(h, tx, mask, height - 1, 2 * pos);
    SitsLeft(Code([true], []), BuildBelow(h, tx, mask, height, pos), c, b, k);
    if 2 * pos + 1 < Width(|tx|, height - 1) {
      SitsLeft(left, Build(h, tx, mask, height - 1, 2 * pos + 1), c, b + 1, k);
    }
  }

  lemma BelowIs(h: Pair, tx: seq<Hash>, mask: seq<bool>, height: nat, pos: nat)
    requires height > 0 && |mask| == |tx| && 2 * pos < Width(|tx|, height - 1)
    ensures var left := Build(h, tx, mask, height - 1, 2 * pos);
            BuildBelow(h, tx, mask, height, pos) ==
              if 2 * pos + 1 < Width(|tx|, height - 1) then Join(left, Build(h, tx, mask, height - 1, 2 * pos + 1)) else left
  {
  }

  lemma {:induction false} Decodes(h: Pair, tx: seq<Hash>, mask: seq<bool>, height: nat, pos: nat, c: Code, b: nat, k: nat)
    requires Injective(h) && Distinct(tx) && |mask| == |tx| && pos < Width(|tx|, height)
    requires Sits(Build(h, tx, mask, height, pos), c, b, k)
    ensures Reads(h, tx, mask, height, pos, c, b, k)
  {
    hide *;
    LeafRange(|tx|, height, pos);
    if height == 0 || !AnyMatch(mask, First(height, pos), Last(|tx|, height, pos)) {
      DecodesLeaf(h, tx, mask, height, pos, c, b, k);
    } else {
      SitsChildren(h, tx, mask, height, pos, c, b, k);
      if 2 * pos + 1 < Width(|tx|, height - 1) {
        var left := Build(h, tx, mask, height - 1, 2 * pos);
        Decodes(h, tx, mask, height - 1, 2 * pos + 1, c, b + 1 + |left.bits|, k + |left.hashes|);
        NodesDiffer(h, tx, height - 1, 2 * pos, 2 * pos + 1);
      }
      Decodes(h, tx, mask, height - 1, 2 * pos, c, b + 1, k);
      DecodesNode(h, tx, mask, height, pos, c, b, k);
    }
  }

  lemma DecodesNode(h: Pair, tx: seq<Hash>, mask: seq<bool>, height: nat, pos: nat, c: Code, b: nat, k: nat)
    requires height > 0 && |mask| == |tx| && pos < Width(|tx|, height) && 2 * pos < Width(|tx|, height - 1)
    requires AnyMatch(mask, First(height, pos), Last(|tx|, height, pos)) && Sits(Code([true], []), c, b, k)
    requires Reads(h, tx, mask, height - 1, 2 * pos, c, b + 1, k)
    requires 2 * pos + 1 < Width(|tx|, height - 1) ==>
               var left := Build(h, tx, mask, height - 1, 2 * pos);
               && Reads(h, tx, mask, height - 1, 2 * pos + 1, c, b + 1 + |left.bits|, k + |left.hashes|)
               && CalcHash(h, tx, height - 1, 2 * pos) != CalcHash(h, tx, height - 1, 2 * pos + 1)
    ensures Reads(h, tx, mask, height, pos, c, b, k)
  {
    var n := |tx|;
    assert c.bits[b] == c.bits[b..b + 1][0];
    LeafRange(n, height, pos);
    if 2 * pos + 1 < Width(n, height - 1) {
      MatchedSplit(tx, mask, First(height, pos), First(height - 1, 2 * pos + 1), Last(n, height, pos));
    }
    hide Width, First, Last, AnyMatch, Matched;
  }

  lemma DecodesLeaf(h: Pair, tx: seq<Hash>, mask: seq<bool>, height: nat, pos: nat, c: Code, b: nat, k: nat)
    requires |mask| == |tx| && pos < Width(|tx|, height)
    requires First(height, pos) <= Last(|tx|, height, pos) <= |tx|
    requires height == 0 || !AnyMatch(mask, First(height, pos), Last(|tx|, height, pos))
    requires Sits(Build(h, tx, mask, height, pos), c, b, k)
    ensures Reads(h, tx, mask, height, pos, c, b, k)
  {
    var e := Build(h, tx, mask, height, pos);
    assert c.bits[b] == c.bits[b..b + 1][0] == e.bits[0];
    assert c.hashes[k] == c.hashes[k..k + 1][0] == e.hashes[0];
    LeafRange(|tx|, height, pos);
    if !e.bits[0] { MatchedNone(tx, mask, First(height, pos), Last(|tx|, height, pos)); }
    if height == 0 && e.bits[0] {
      var p :| First(0, pos) <= p < Last(|tx|, 0, pos) && p < |mask| && mask[p];
      assert p == pos;
      assert Matched(tx, mask, pos + 1, pos + 1) == [];
    }
  }

  // ---------------------------------------------------------------- sizes

  /** A code has a bit for every hash, at most one hash per leaf, and at most one more than the
      number of matches times the height. */
  lemma {:induction false} BuildSizes(h: Pair, tx: seq<Hash>, mask: seq<bool>, height: nat, pos: nat)
    requires |mask| == |tx| && pos < Width(|tx|, height)
    ensures First(height, pos) < Last(|tx|, height, pos) <= |tx|
    ensures var e := Build(h, tx, mask, height, pos);
            var m := |Matched(tx, mask, First(height, pos), Last(|tx|, height, pos))|;
            && |e.hashes| <= |e.bits|
            && |e.hashes| <= Last(|tx|, height, pos) - First(height, pos)
            && |e.hashes| <= 1 + m * height
  {
    LeafRange(|tx|, height, pos);
    var lo, hi := First(height, pos), Last(|tx|, height, pos);
    if height > 0 && AnyMatch(mask, lo, hi) {
      BuildSizes(h, tx, mask, height - 1, 2 * pos);
      if 2 * pos + 1 < Width(|tx|, height - 1) {
        BuildSizes(h, tx, mask, height - 1, 2 * pos + 1);
        var mid := First(height - 1, 2 * pos + 1);
        MatchedSplit(tx, mask, lo, mid, hi);
        MatchedSome(tx, mask, lo, hi);
        TwoSubtrees(|Matched(tx, mask, lo, mid)|, |Matched(tx, mask, mid, hi)|, height);
        hide First, Last, Width, AnyMatch, Matched;
      } else {
        hide First, Last, Width, AnyMatch, Matched;
        assert |Matched(tx, mask, lo, hi)| * (height - 1) <= |Matched(tx, mask, lo, hi)| * height;
      }
    }
  }

  lemma TwoSubtrees(m1: nat, m2: nat, height: nat)
    requires height > 0 && m1 + m2 > 0
    ensures (1 + m1 * (height - 1)) + (1 + m2 * (height - 1)) <= 1 + (m1 + m2) * height
  {
    assert m1 * (height - 1) + m2 * (height - 1) == (m1 + m2) * height - (m1 + m2);
  }

  lemma {:induction false} MatchedSome(tx: seq<Hash>, mask: seq<bool>, lo: nat, hi: nat)
    requires lo <= hi <= |tx| == |mask| && AnyMatch(mask, lo, hi)
    ensures |Matched(tx, mask, lo, hi)| > 0
    decreases hi - lo
  {
    if !mask[lo] {
      var p :| lo <= p < hi && p < |mask| && mask[p];
      MatchedSome(tx, mask, lo + 1, hi);
    }
  }

  /** Descended nodes of a walk that have only one child. */
  function OnlyChildren(n: nat, mask: seq<bool>, height: nat, pos: nat): nat {
    if height == 0 || !AnyMatch(mask, First(height, pos), Last(n, height, pos)) then 0
    else if 2 * pos + 1 < Width(n, height - 1)
    then OnlyChildren(n, mask, height - 1, 2 * pos) + OnlyChildren(n, mask, height - 1, 2 * pos + 1)
    else 1 + OnlyChildren(n, mask, height - 1, 2 * pos)
  }

  /** The documented bound of 2N-1 bits for N hashes is exceeded by exactly the number of
      descended nodes with one child, so it holds if and only if there is none. */
  lemma {:induction false} BitCount(h: Pair, tx: seq<Hash>, mask: seq<bool>, height: nat, pos: nat)
    requires |mask| == |tx| && pos < Width(|tx|, height)
    ensures var e := Build(h, tx, mask, height, pos);
            |e.bits| == 2 * |e.hashes| - 1 + OnlyChildren(|tx|, mask, height, pos)
  {
    if height > 0 && AnyMatch(mask, First(height, pos), Last(|tx|, height, pos)) {
      LeftChild(|tx|, height, pos);
      hide Width, First, Last, AnyMatch;
      BitCount(h, tx, mask, height - 1, 2 * pos);
      if 2 * pos + 1 < Width(|tx|, height - 1) {
        BitCount(h, tx, mask, height - 1, 2 * pos + 1);
      }
    }
  }

  lemma FiveLeaves()
    ensures Width(5, 3) == 1 && Width(5, 2) == 2 && Width(5, 1) == 3 && Width(5, 0) == 5
    ensures var mask := [false, false, false, false, true];
            && AnyMatch(mask, First(3, 0), Last(5, 3, 0)) && !AnyMatch(mask, First(2, 0), Last(5, 2, 0))
            && AnyMatch(mask, First(2, 1), Last(5, 2, 1)) && AnyMatch(mask, First(1, 2), Last(5, 1, 2))
  {
    assert Two(1) == 2 && Two(2) == 4 && Two(3) == 8;
    assert [false, false, false, false, true][4];
  }

  /** Five transactions with the last one matched: two hashes, five bits. */
  lemma BitBoundFails(h: Pair, tx: seq<Hash>)
    requires |tx| == 5
    ensures Width(5, 3) == 1
    ensures var e := Build(h, tx, [false, false, false, false, true], 3, 0); |e.hashes| == 2 && |e.bits| == 5
  {
    var mask := [false, false, false, false, true];
    FiveLeaves();
    assert var e := Build(h, tx, mask, 0, 4); |e.bits| == 1 == |e.hashes|;
    assert var e := Build(h, tx, mask, 2, 0); |e.bits| == 1 == |e.hashes|;
    hide Build, Width, First, Last, AnyMatch;
    BuildNode(h, tx, mask, 1, 2);
    BuildNode(h, tx, mask, 2, 1);
    BuildNode(h, tx, mask, 3, 0);
  }

  // ---------------------------------------------------------------- bits in bytes

  /** The byte with only bit k set. */
  function Mask(k: nat): bv8
    requires k < 8
  {
    match k
    case 0 => 0x01 case 1 => 0x02 case 2 => 0x04 case 3 => 0x08
    case 4 => 0x10 case 5 => 0x20 case 6 => 0x40 case _ => 0x80
  }

  function Unpack(bytes: seq<bv8>): seq<bool> {
    seq(8 * |bytes|, p requires 0 <= p < 8 * |bytes| => bytes[p / 8] & Mask(p % 8) != 0)
  }

  lemma SetBit(b: bv8, k: nat, j: nat)
    requires k < 8 && j < 8
    ensures (b | Mask(k)) & Mask(j) != 0 <==> j == k || b & Mask(j) != 0
  {
  }

  /** Packs bits into bytes, least significant bit first; the last byte is padded with zeros. */
  method Pack(bits: seq<bool>) returns (bytes: array<bv8>)
    ensures fresh(bytes) && bytes.Length == (|bits| + 7) / 8
    ensures Unpack(bytes[..]) == bits + seq(8 * bytes.Length - |bits|, _ => false)
  {
    bytes := new bv8[(|bits| + 7) / 8](_ => 0);
    for p := 0 to |bits|
      invariant forall j :: 0 <= j < 8 * bytes.Length ==> (HasBit(bytes, j) <==> j < p && bits[j])
    {
      if bits[p] {
        PutBit(bytes, p);
      }
    }
    var u := Unpack(bytes[..]);
    forall j | 0 <= j < 8 * bytes.Length
      ensures u[j] == (j < |bits| && bits[j])
    {
      assert u[j] == HasBit(bytes, j);
    }
  }

  predicate HasBit(bytes: array<bv8>, p: nat)
    requires p < 8 * bytes.Length
    reads bytes
  {
    bytes[p / 8] & Mask(p % 8) != 0
  }

  method PutBit(bytes: array<bv8>, p: nat)
    requires p < 8 * bytes.Length
    modifies bytes
    ensures forall j :: 0 <= j < 8 * bytes.Length ==> (HasBit(bytes, j) <==> j == p || old(HasBit(bytes, j)))
  {
    var b := bytes[p / 8];
    bytes[p / 8] := b | Mask(p % 8);
    forall j | 0 <= j < 8 * bytes.Length
      ensures HasBit(bytes, j) <==> j == p || old(HasBit(bytes, j))
    {
      SetBit(b, p % 8, j % 8);
    }
  }

  // ---------------------------------------------------------------- the theorem

  function BuildAll(h: Pair, tx: seq<Hash>, mask: seq<bool>): Code
    requires |tx| > 0 && |mask| == |tx|
  {
    RootExists(|tx|, 0);
    Build(h, tx, mask, TreeHeight(|tx|), 0)
  }

  lemma WholeRange(n: nat)
    requires n > 0
    ensures Width(n, TreeHeight(n)) == 1 && First(TreeHeight(n), 0) == 0 && Last(n, TreeHeight(n), 0) == n
  {
    RootExists(n, 0);
    WidthBounds(n, TreeHeight(n));
  }

  /** Main theorem, round trip.  Building a partial tree for any subset, packing its bits into
      bytes, unpacking them and decoding gives the full Merkle root and exactly the matched
      transactions with their indices, in order. */
  lemma RoundTrip(h: Pair, tx: seq<Hash>, mask: seq<bool>, bytes: seq<bv8>)
    requires Injective(h) && Distinct(tx) && |tx| > 0 && |mask| == |tx|
    requires var bits := BuildAll(h, tx, mask).bits;
             |bytes| == (|bits| + 7) / 8 && Unpack(bytes) == bits + seq(8 * |bytes| - |bits|, _ => false)
    ensures ExtractMatches(h, |tx|, Code(Unpack(bytes), BuildAll(h, tx, mask).hashes)) ==
            (Root(h, tx), Matched(tx, mask, 0, |tx|))
  {
    var n := |tx|;
    var e := BuildAll(h, tx, mask);
    var c := Code(Unpack(bytes), e.hashes);
    WholeRange(n);
    BuildSizes(h, tx, mask, TreeHeight(n), 0);
    assert c.bits[0..|e.bits|] == e.bits;
    assert Sits(e, c, 0, 0);
    hide Width, Build, Unpack, First, Last, Injective, Distinct, TreeHeight, CalcHash, Extract, Sits, Matched;
    Decodes(h, tx, mask, TreeHeight(n), 0, c, 0, 0);
  }

  /** The size promises of the format: no more hashes than transactions, and no more than one
      plus the number of matches times the height of the tree. */
  lemma CodeSize(h: Pair, tx: seq<Hash>, mask: seq<bool>)
    requires |tx| > 0 && |mask| == |tx|
    ensures |BuildAll(h, tx, mask).hashes| <= |tx|
    ensures |BuildAll(h, tx, mask).hashes| <= 1 + |Matched(tx, mask, 0, |tx|)| * TreeHeight(|tx|)
  {
    WholeRange(|tx|);
    BuildSizes(h, tx, mask, TreeHeight(|tx|), 0);
  }

  /** The code of a node's children. */
  function BuildBelow(h: Pair, tx: seq<Hash>, mask: seq<bool>, height: nat, pos: nat): Code
    requires height > 0 && |mask| == |tx| && 2 * pos < Width(|tx|, height - 1)
  {
    var left := Build(h, tx, mask, height - 1, 2 * pos);
    if 2 * pos + 1 < Width(|tx|, height - 1) then Join(left, Build(h, tx, mask, height - 1, 2 * pos + 1)) else left
  }

  lemma BuildNode(h: Pair, tx: seq<Hash>, mask: seq<bool>, height: nat, pos: nat)
    requires height > 0 && |mask| == |tx| && pos < Width(|tx|, height)
    requires AnyMatch(mask, First(height, pos), Last(|tx|, height, pos))
    ensures 2 * pos < Width(|tx|, height - 1)
    ensures Build(h, tx, mask, height, pos) == Join(Code([true], []), BuildBelow(h, tx, mask, height, pos))
  {
    LeftChild(|tx|, height, pos);
  }

  /** The part of a walk below a node. */
  function ExtractBelow(h: Pair, n: nat, c: Code, height: nat, pos: nat, bitsUsed: nat, hashUsed: nat): Walk
    requires height > 0
  {
    var left := Extract(h, n, c, height - 1, 2 * pos, bitsUsed, hashUsed);
    if 2 * pos + 1 < Width(n, height - 1) then
      var right := Extract(h, n, c, height - 1, 2 * pos + 1, left.bitsUsed, left.hashUsed);
      Walk(h(left.hash, right.hash), right.bitsUsed, right.hashUsed,
           left.bad || right.bad || right.hash == left.hash, left.found + right.found)
    else left.(hash := h(left.hash, left.hash))
  }

  lemma ExtractNode(h: Pair, n: nat, c: Code, height: nat, pos: nat, b: nat, k: nat)
    requires b < |c.bits| && c.bits[b] && height > 0
    ensures Extract(h, n, c, height, pos, b, k) == ExtractBelow(h, n, c, height, pos, b + 1, k)
  {
  }

  // ---------------------------------------------------------------- the tree object

  /** A partial tree whose traversals append to, or read from, its fields. */
  class PartialMerkleTree {
    const h: Pair
    var nTransactions: nat
    var vBits: seq<bool>
    var vHash: seq<Hash>
    var fBad: bool

    /** Whether some leaf below a node is matched. */
    method ParentOfMatch(height: nat, pos: nat, vMatch: seq<bool>) returns (r: bool)
      requires nTransactions == |vMatch| && pos < Width(|vMatch|, height)
      ensures r == AnyMatch(vMatch, First(height, pos), Last(|vMatch|, height, pos))
    {
      LeafRange(|vMatch|, height, pos);
      hide Width;
      r := false;
      var p := pos * Two(height);
      while p < (pos + 1) * Two(height) && p < nTransactions
        invariant First(height, pos) <= p <= Last(|vMatch|, height, pos)
        invariant r == AnyMatch(vMatch, First(height, pos), p)
      {
        r := r || vMatch[p];
        p := p + 1;
      }
    }

    method TraverseAndBuild(height: nat, pos: nat, vTxid: seq<Hash>, vMatch: seq<bool>)
      requires nTransactions == |vTxid| == |vMatch| && pos < Width(|vTxid|, height)
      modifies this
      ensures var e := Build(h, vTxid, vMatch, height, pos);
              vBits == old(vBits) + e.bits && vHash == old(vHash) + e.hashes
      ensures nTransactions == old(nTransactions) && fBad == old(fBad)
      decreases height
    {
      hide Width, AnyMatch, First, Last, CalcHash;
      var fParentOfMatch := ParentOfMatch(height, pos, vMatch);
      vBits := vBits + [fParentOfMatch];
      if height == 0 || !fParentOfMatch {
        vHash := vHash + [CalcHash(h, vTxid, height, pos)];
      } else {
        BuildNode(h, vTxid, vMatch, height, pos);
        hide Build, BuildBelow;
        BuildChildren(height, pos, vTxid, vMatch);
      }
    }

    method BuildChildren(height: nat, pos: nat, vTxid: seq<Hash>, vMatch: seq<bool>)
      requires nTransactions == |vTxid| == |vMatch| && height > 0 && 2 * pos < Width(|vTxid|, height - 1)
      modifies this
      ensures var e := BuildBelow(h, vTxid, vMatch, height, pos);
              vBits == old(vBits) + e.bits && vHash == old(vHash) + e.hashes
      ensures nTransactions == old(nTransactions) && fBad == old(fBad)
      decreases height, 0
    {
      hide Width, Build;
      TraverseAndBuild(height - 1, pos * 2, vTxid, vMatch);
      if pos * 2 + 1 < Width(|vTxid|, height - 1) {
        TraverseAndBuild(height - 1, pos * 2 + 1, vTxid, vMatch);
      }
    }

    method TraverseAndExtract(height: nat, pos: nat, bitsUsed: nat, hashUsed: nat, vMatch: seq<Match>)
      returns (hash: Hash, nBitsUsed: nat, nHashUsed: nat, found: seq<Match>)
      modifies this
      ensures vBits == old(vBits) && vHash == old(vHash) && nTransactions == old(nTransactions)
      ensures var w := Extract(h, nTransactions, Code(vBits, vHash), height, pos, bitsUsed, hashUsed);
              && hash == w.hash && nBitsUsed == w.bitsUsed && nHashUsed == w.hashUsed
              && found == vMatch + w.found && fBad == (old(fBad) || w.bad)
      decreases height
    {
      hide Width;
      nBitsUsed, nHashUsed, found := bitsUsed, hashUsed, vMatch;
      if nBitsUsed >= |vBits| {
        fBad := true;
        return 0, nBitsUsed, nHashUsed, found;
      }
      var fParentOfMatch := vBits[nBitsUsed];
      nBitsUsed := nBitsUsed + 1;
      if height == 0 || !fParentOfMatch {
        if nHashUsed >= |vHash| {
          fBad := true;
          return 0, nBitsUsed, nHashUsed, found;
        }
        hash := vHash[nHashUsed];
        nHashUsed := nHashUsed + 1;
        if height == 0 && fParentOfMatch { found := found + [Match(pos, hash)]; }
      } else {
        ExtractNode(h, nTransactions, Code(vBits, vHash), height, pos, bitsUsed, hashUsed);
        hide Extract;
        hash, nBitsUsed, nHashUsed, found := ExtractChildren(height, pos, nBitsUsed, nHashUsed, found);
      }
    }

    /** The descent below a node that is the parent of a match. */
    method ExtractChildren(height: nat, pos: nat, bitsUsed: nat, hashUsed: nat, vMatch: seq<Match>)
      returns (hash: Hash, nBitsUsed: nat, nHashUsed: nat, found: seq<Match>)
      requires height > 0
      modifies this
      ensures vBits == old(vBits) && vHash == old(vHash) && nTransactions == old(nTransactions)
      ensures var w := ExtractBelow(h, nTransactions, Code(vBits, vHash), height, pos, bitsUsed, hashUsed);
              && hash == w.hash && nBitsUsed == w.bitsUsed && nHashUsed == w.hashUsed
              && found == vMatch + w.found && fBad == (old(fBad) || w.bad)
      decreases height, 0
    {
      hide Width, Extract;
      var left, right;
      left, nBitsUsed, nHashUsed, found := TraverseAndExtract(height - 1, pos * 2, bitsUsed, hashUsed, vMatch);
      if pos * 2 + 1 < Width(nTransactions, height - 1) {
        right, nBitsUsed, nHashUsed, found := TraverseAndExtract(height - 1, pos * 2 + 1, nBitsUsed, nHashUsed, found);
        if right == left { fBad := true; }
      } else {
        right := left;
      }
      hash := h(left, right);
    }

    /** The number of levels above the leaves. */
    method TreeLevels() returns (nHeight: nat)
      ensures nHeight == TreeHeight(nTransactions)
    {
      nHeight := 0;
      while Width(nTransactions, nHeight) > 1
        invariant TreeHeight(nTransactions, nHeight) == TreeHeight(nTransactions)
        decreases Width(nTransactions, nHeight)
      {
        WidthHalves(nTransactions, nHeight);
        nHeight := nHeight + 1;
      }
    }

    constructor (h: Pair, vTxid: seq<Hash>, vMatch: seq<bool>)
      requires |vTxid| == |vMatch| > 0
      ensures this.h == h && nTransactions == |vTxid| && !fBad
      ensures Code(vBits, vHash) == BuildAll(h, vTxid, vMatch)
    {
      this.h := h;
      nTransactions, vBits, vHash, fBad := |vTxid|, [], [], false;
      new;
      var nHeight := TreeLevels();
      RootExists(|vTxid|, 0);
      TraverseAndBuild(nHeight, 0, vTxid, vMatch);
    }

    /** Decodes the tree.  An object once found bad stays so. */
    method ExtractAll() returns (root: Hash, found: seq<Match>)
      modifies this
      ensures var r := ExtractMatches(h, old(nTransactions), Code(old(vBits), old(vHash)));
              found == r.1 && root == if old(fBad) then 0 else r.0
    {
      hide Width, Extract;
      if nTransactions == 0 { return 0, []; }
      if |vHash| > nTransactions { return 0, []; }
      if |vBits| < |vHash| { return 0, []; }
      var nHeight := TreeLevels();
      var hash, nBitsUsed, nHashUsed, vMatch := TraverseAndExtract(nHeight, 0, 0, 0, []);
      if fBad { return 0, vMatch; }
      if (nBitsUsed + 7) / 8 != (|vBits| + 7) / 8 { return 0, vMatch; }
      if nHashUsed != |vHash| { return 0, vMatch; }
      return hash, vMatch;
    }
  }
}
