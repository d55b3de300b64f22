/** The depth-first encoding of a subset of a block's transactions, what it carries, and
    what decoding arbitrary bits and hashes can conclude. */
module PartialMerkle {
  import opened Basics
  import opened MerkleTree
  import opened Powers

  // The leaves under a node

  function First(height: nat, pos: nat): nat { pos * Pow2(height) }

  function Last(n: nat, height: nat, pos: nat): nat {
    if (pos + 1) * Pow2(height) < n then (pos + 1) * Pow2(height) else n
  }

  /** A node's leaves are its left child's followed by its right child's, if it has one. */
  lemma SplitLeaves(n: nat, height: nat, pos: nat)
    requires height > 0 && InTree(n, height, pos)
    ensures InTree(n, height - 1, 2 * pos)
    ensures First(height - 1, 2 * pos) == First(height, pos)
    ensures First(height, pos) < Last(n, height - 1, 2 * pos) <= Last(n, height, pos) <= n
    ensures InTree(n, height - 1, 2 * pos + 1) ==>
      First(height - 1, 2 * pos + 1) == Last(n, height - 1, 2 * pos)
    ensures InTree(n, height - 1, 2 * pos + 1) ==>
      Last(n, height - 1, 2 * pos + 1) == Last(n, height, pos)
    ensures !InTree(n, height - 1, 2 * pos + 1) ==>
      Last(n, height - 1, 2 * pos) == Last(n, height, pos) == n
  {
    Children(height, pos);
    var p := Pow2(height - 1);
    assert (2 * pos + 1) * p == (2 * pos) * p + p;
    assert (2 * pos + 2) * p == (2 * pos + 1) * p + p;
  }

  lemma LeafRange(n: nat, height: nat, pos: nat)
    requires InTree(n, height, pos)
    ensures First(height, pos) < Last(n, height, pos) <= n
    ensures height == 0 ==> First(height, pos) == pos && Last(n, height, pos) == pos + 1
  {
    assert (pos + 1) * Pow2(height) == pos * Pow2(height) + Pow2(height);
  }

  /** The positions in [lo, hi) that are flagged, in order. */
  function Matched(flags: seq<bool>, lo: nat, hi: nat): seq<nat>
    requires lo <= hi <= |flags|
    decreases hi - lo
  {
    if lo == hi then []
    else (if flags[lo] then [lo] else []) + Matched(flags, lo + 1, hi)
  }

  lemma {:induction false} MatchedSplit(flags: seq<bool>, lo: nat, mid: nat, hi: nat)
    requires lo <= mid <= hi <= |flags|
    ensures Matched(flags, lo, hi) == Matched(flags, lo, mid) + Matched(flags, mid, hi)
    decreases mid - lo
  {
    if lo < mid {
      MatchedSplit(flags, lo + 1, mid, hi);
      var head := if flags[lo] then [lo] else [];
      assert head + (Matched(flags, lo + 1, mid) + Matched(flags, mid, hi))
          == (head + Matched(flags, lo + 1, mid)) + Matched(flags, mid, hi);
    }
  }

  lemma MatchedNone(flags: seq<bool>, p: nat)
    requires p <= |flags|
    ensures Matched(flags, p, p) == []
  {
  }

  lemma MatchedOne(flags: seq<bool>, p: nat)
    requires p < |flags|
    ensures Matched(flags, p, p + 1) == if flags[p] then [p] else []
  {
  }

  /** Matched lists exactly the flagged positions, in ascending order. */
  lemma {:induction false} MatchedExactly(flags: seq<bool>, lo: nat, hi: nat)
    requires lo <= hi <= |flags|
    ensures forall i :: i in Matched(flags, lo, hi) <==> lo <= i < hi && flags[i]
    ensures Ascending(Matched(flags, lo, hi))
    decreases hi - lo
  {
    if lo < hi {
      MatchedExactly(flags, lo + 1, hi);
      var rest := Matched(flags, lo + 1, hi);
      assert forall k | 0 <= k < |rest| :: rest[k] in rest;
      assert Ascending([lo] + rest);
    }
  }

  function ParentOfMatch(flags: seq<bool>, height: nat, pos: nat): bool
    requires InTree(|flags|, height, pos)
  {
    LeafRange(|flags|, height, pos);
    Matched(flags, First(height, pos), Last(|flags|, height, pos)) != []
  }

  // Encoding

  datatype Encoding = Encoding(bits: seq<bool>, hashes: seq<Hash>)

  function Append(a: Encoding, b: Encoding): Encoding {
    Encoding(a.bits + b.bits, a.hashes + b.hashes)
  }

  function Build(h: (Hash, Hash) -> Hash, txids: seq<Hash>, flags: seq<bool>, height: nat, pos: nat): Encoding
    requires |flags| == |txids| && InTree(|txids|, height, pos)
    decreases height
  {
    var parent := ParentOfMatch(flags, height, pos);
    if height == 0 || !parent then Encoding([parent], [CalcHash(h, txids, height, pos)])
    else
      Children(height, pos);
      var left := Build(h, txids, flags, height - 1, 2 * pos);
      var both := if InTree(|txids|, height - 1, 2 * pos + 1)
        then Append(left, Build(h, txids, flags, height - 1, 2 * pos + 1)) else left;
      Encoding([parent] + both.bits, both.hashes)
  }

  /** The encoding of a node: its bit, then its hash or its children. */
  lemma BuildCases(h: (Hash, Hash) -> Hash, txids: seq<Hash>, flags: seq<bool>, height: nat, pos: nat)
    requires |flags| == |txids| && InTree(|txids|, height, pos)
    ensures var parent := ParentOfMatch(flags, height, pos);
      if height == 0 || !parent then
        Build(h, txids, flags, height, pos) == Encoding([parent], [CalcHash(h, txids, height, pos)])
      else
        && InTree(|txids|, height - 1, 2 * pos)
        && var left := Append(Encoding([parent], []), Build(h, txids, flags, height - 1, 2 * pos));
           Build(h, txids, flags, height, pos)
             == if InTree(|txids|, height - 1, 2 * pos + 1)
                then Append(left, Build(h, txids, flags, height - 1, 2 * pos + 1)) else left
  {
    hide ParentOfMatch, CalcHash;
    if height > 0 && ParentOfMatch(flags, height, pos) {
      Children(height, pos);
      if InTree(|txids|, height - 1, 2 * pos + 1) {
        AppendAssociates(Encoding([true], []), Build(h, txids, flags, height - 1, 2 * pos),
                         Build(h, txids, flags, height - 1, 2 * pos + 1));
      }
    }
  }

  lemma AppendAssociates(a: Encoding, b: Encoding, c: Encoding)
    ensures Append(Append(a, b), c) == Append(a, Append(b, c))
  {
  }

  lemma AppendPieces(a: Encoding, bits: seq<bool>, hashes: seq<Hash>)
    ensures Append(a, Encoding(bits, hashes)) == Encoding(a.bits + bits, a.hashes + hashes)
    ensures hashes == [] ==> Append(a, Encoding(bits, hashes)) == Encoding(a.bits + bits, a.hashes)
  {
  }

  // Decoding: what a node's traversal returns and what it leaves unread

  datatype Extraction = Extraction(
    hash: Hash,
    bits: seq<bool>,
    hashes: seq<Hash>,
    matches: seq<Hash>,
    indexes: seq<nat>,
    bad: bool)

  /** Traversal that does not descend below the node. */
  function Halt(height: nat, pos: nat, bits: seq<bool>, hashes: seq<Hash>): Extraction {
    if bits == [] then Extraction(0, bits, hashes, [], [], true)
    else if hashes == [] then Extraction(0, bits[1..], hashes, [], [], true)
    else if height == 0 && bits[0] then Extraction(hashes[0], bits[1..], hashes[1..], [hashes[0]], [pos], false)
    else Extraction(hashes[0], bits[1..], hashes[1..], [], [], false)
  }

  function Pair(h: (Hash, Hash) -> Hash, l: Extraction, r: Extraction): Extraction {
    Extraction(h(l.hash, r.hash), r.bits, r.hashes, l.matches + r.matches, l.indexes + r.indexes,
               l.bad || r.bad || r.hash == l.hash)
  }

  function Lone(h: (Hash, Hash) -> Hash, l: Extraction): Extraction {
    l.(hash := h(l.hash, l.hash))
  }

  predicate Descends(height: nat, bits: seq<bool>) {
    bits != [] && height > 0 && bits[0]
  }

  function Extract(h: (Hash, Hash) -> Hash, n: nat, height: nat, pos: nat, bits: seq<bool>, hashes: seq<Hash>): Extraction
    decreases height
  {
    if !Descends(height, bits) then Halt(height, pos, bits, hashes)
    else
      var l := Extract(h, n, height - 1, 2 * pos, bits[1..], hashes);
      if InTree(n, height - 1, 2 * pos + 1)
      then Pair(h, l, Extract(h, n, height - 1, 2 * pos + 1, l.bits, l.hashes))
      else Lone(h, l)
  }

  lemma ExtractCases(h: (Hash, Hash) -> Hash, n: nat, height: nat, pos: nat, bits: seq<bool>, hashes: seq<Hash>)
    ensures !Descends(height, bits) ==> Extract(h, n, height, pos, bits, hashes) == Halt(height, pos, bits, hashes)
    ensures Descends(height, bits) ==>
      var l := Extract(h, n, height - 1, 2 * pos, bits[1..], hashes);
      Extract(h, n, height, pos, bits, hashes)
        == if InTree(n, height - 1, 2 * pos + 1)
           then Pair(h, l, Extract(h, n, height - 1, 2 * pos + 1, l.bits, l.hashes)) else Lone(h, l)
  {
  }

  // Soundness

  /** Every reported match is the transaction at the reported position. */
  ghost predicate Real(txids: seq<Hash>, matches: seq<Hash>, indexes: seq<nat>) {
    && |matches| == |indexes|
    && forall i | 0 <= i < |indexes| :: RealAt(txids, matches[i], indexes[i])
  }

  ghost predicate RealAt(txids: seq<Hash>, txid: Hash, index: nat) {
    index < |txids| && txids[index] == txid
  }

  lemma RealJoin(txids: seq<Hash>, m: seq<Hash>, i: seq<nat>, m': seq<Hash>, i': seq<nat>)
    requires Real(txids, m, i) && Real(txids, m', i')
    ensures Real(txids, m + m', i + i')
  {
  }

  /** Whatever the bits and hashes: a traversal that is not bad and arrives at the node's true
      hash has reported only transactions of the block, each at its own position. */
  lemma {:induction false} ExtractSound(h: (Hash, Hash) -> Hash, txids: seq<Hash>, height: nat, pos: nat,
                                        bits: seq<bool>, hashes: seq<Hash>)
    requires PairInjective(h) && InTree(|txids|, height, pos)
    requires var e := Extract(h, |txids|, height, pos, bits, hashes);
      !e.bad && e.hash == CalcHash(h, txids, height, pos)
    ensures var e := Extract(h, |txids|, height, pos, bits, hashes);
      Real(txids, e.matches, e.indexes)
    decreases height
  {
    hide PairInjective, InTree;
    LeafRange(|txids|, height, pos);
    if Descends(height, bits) {
      SplitLeaves(|txids|, height, pos);
      var l := Extract(h, |txids|, height - 1, 2 * pos, bits[1..], hashes);
      var lc := CalcHash(h, txids, height - 1, 2 * pos);
      if InTree(|txids|, height - 1, 2 * pos + 1) {
        var r := Extract(h, |txids|, height - 1, 2 * pos + 1, l.bits, l.hashes);
        Injected(h, l.hash, r.hash, lc, CalcHash(h, txids, height - 1, 2 * pos + 1));
        ExtractSound(h, txids, height - 1, 2 * pos, bits[1..], hashes);
        ExtractSound(h, txids, height - 1, 2 * pos + 1, l.bits, l.hashes);
        RealJoin(txids, l.matches, l.indexes, r.matches, r.indexes);
      } else {
        Injected(h, l.hash, l.hash, lc, lc);
        ExtractSound(h, txids, height - 1, 2 * pos, bits[1..], hashes);
      }
    }
  }

  /** The same whatever number n of transactions was announced, over distinct transactions. A node that has a
      second child in the announced tree only would need two equal hashes, and that is bad; one that has it
      in the true tree only would need two equal nodes. */
  lemma {:induction false} ExtractSoundAnnounced(h: (Hash, Hash) -> Hash, txids: seq<Hash>, n: nat, height: nat, pos: nat,
                                                 bits: seq<bool>, hashes: seq<Hash>)
    requires PairInjective(h) && Distinct(txids) && InTree(|txids|, height, pos)
    requires var e := Extract(h, n, height, pos, bits, hashes);
      !e.bad && e.hash == CalcHash(h, txids, height, pos)
    ensures var e := Extract(h, n, height, pos, bits, hashes);
      Real(txids, e.matches, e.indexes)
    decreases height
  {
    hide PairInjective, InTree, Distinct;
    LeafRange(|txids|, height, pos);
    if Descends(height, bits) {
      SplitLeaves(|txids|, height, pos);
      var l := Extract(h, n, height - 1, 2 * pos, bits[1..], hashes);
      var lc := CalcHash(h, txids, height - 1, 2 * pos);
      var twoTrue := InTree(|txids|, height - 1, 2 * pos + 1);
      var rc := if twoTrue then CalcHash(h, txids, height - 1, 2 * pos + 1) else lc;
      if twoTrue { NodesDiffer(h, txids, height - 1, 2 * pos, 2 * pos + 1); }
      if InTree(n, height - 1, 2 * pos + 1) {
        var r := Extract(h, n, height - 1, 2 * pos + 1, l.bits, l.hashes);
        Injected(h, l.hash, r.hash, lc, rc);
        ExtractSoundAnnounced(h, txids, n, height - 1, 2 * pos, bits[1..], hashes);
        ExtractSoundAnnounced(h, txids, n, height - 1, 2 * pos + 1, l.bits, l.hashes);
        RealJoin(txids, l.matches, l.indexes, r.matches, r.indexes);
      } else {
        Injected(h, l.hash, l.hash, lc, rc);
        ExtractSoundAnnounced(h, txids, n, height - 1, 2 * pos, bits[1..], hashes);
      }
    }
  }

  /** Positions are reported in ascending order, within the node's own leaves. */
  ghost predicate AscendingWithin(s: seq<nat>, lo: nat, hi: nat) {
    Ascending(s) && forall i | 0 <= i < |s| :: lo <= s[i] < hi
  }

  lemma AscendingJoin(s: seq<nat>, t: seq<nat>, lo: nat, mid: nat, hi: nat)
    requires lo <= mid <= hi && AscendingWithin(s, lo, mid) && AscendingWithin(t, mid, hi)
    ensures AscendingWithin(s + t, lo, hi)
  {
  }

  lemma {:induction false} ExtractOrdered(h: (Hash, Hash) -> Hash, n: nat, height: nat, pos: nat,
                                          bits: seq<bool>, hashes: seq<Hash>)
    requires InTree(n, height, pos)
    ensures AscendingWithin(Extract(h, n, height, pos, bits, hashes).indexes, First(height, pos), Last(n, height, pos))
    decreases height
  {
    hide InTree, First, Last;
    LeafRange(n, height, pos);
    if Descends(height, bits) {
      SplitLeaves(n, height, pos);
      var l := Extract(h, n, height - 1, 2 * pos, bits[1..], hashes);
      ExtractOrdered(h, n, height - 1, 2 * pos, bits[1..], hashes);
      if InTree(n, height - 1, 2 * pos + 1) {
        var r := Extract(h, n, height - 1, 2 * pos + 1, l.bits, l.hashes);
        ExtractOrdered(h, n, height - 1, 2 * pos + 1, l.bits, l.hashes);
        AscendingJoin(l.indexes, r.indexes, First(height, pos), Last(n, height - 1, 2 * pos), Last(n, height, pos));
      }
    }
  }

  // Round trip

  /** What an honest traversal of a node returns, the unread input being bits and hashes. */
  ghost predicate Recovered(e: Extraction, h: (Hash, Hash) -> Hash, txids: seq<Hash>, flags: seq<bool>, height: nat, pos: nat,
                            bits: seq<bool>, hashes: seq<Hash>)
    requires |flags| == |txids| && InTree(|txids|, height, pos)
  {
    LeafRange(|flags|, height, pos);
    && !e.bad
    && e.hash == CalcHash(h, txids, height, pos)
    && e.bits == bits && e.hashes == hashes
    && e.indexes == Matched(flags, First(height, pos), Last(|flags|, height, pos))
    && Real(txids, e.matches, e.indexes)
  }

  lemma {:induction false} BuildRecovered(h: (Hash, Hash) -> Hash, txids: seq<Hash>, flags: seq<bool>, height: nat, pos: nat,
                                          bits: seq<bool>, hashes: seq<Hash>)
    requires PairInjective(h) && Distinct(txids)
    requires |flags| == |txids| && InTree(|txids|, height, pos)
    ensures var b := Build(h, txids, flags, height, pos);
      Recovered(Extract(h, |txids|, height, pos, b.bits + bits, b.hashes + hashes), h, txids, flags, height, pos, bits, hashes)
    decreases height
  {
    hide PairInjective, Distinct, InTree, First, Last, Matched, Recovered;
    if height == 0 || !ParentOfMatch(flags, height, pos) {
      RecoveredStop(h, txids, flags, height, pos, bits, hashes);
    } else {
      SplitLeaves(|txids|, height, pos);
      var left := Build(h, txids, flags, height - 1, 2 * pos);
      if InTree(|txids|, height - 1, 2 * pos + 1) {
        var right := Build(h, txids, flags, height - 1, 2 * pos + 1);
        BuildRecovered(h, txids, flags, height - 1, 2 * pos, right.bits + bits, right.hashes + hashes);
        BuildRecovered(h, txids, flags, height - 1, 2 * pos + 1, bits, hashes);
        RecoveredPair(h, txids, flags, height, pos, bits, hashes);
      } else {
        BuildRecovered(h, txids, flags, height - 1, 2 * pos, bits, hashes);
        RecoveredLone(h, txids, flags, height, pos, bits, hashes);
      }
    }
  }

  lemma RecoveredStop(h: (Hash, Hash) -> Hash, txids: seq<Hash>, flags: seq<bool>, height: nat, pos: nat,
                      bits: seq<bool>, hashes: seq<Hash>)
    requires |flags| == |txids| && InTree(|txids|, height, pos)
    requires height == 0 || !ParentOfMatch(flags, height, pos)
    ensures var b := Build(h, txids, flags, height, pos);
      Recovered(Extract(h, |txids|, height, pos, b.bits + bits, b.hashes + hashes), h, txids, flags, height, pos, bits, hashes)
  {
    LeafRange(|txids|, height, pos);
    var b := Build(h, txids, flags, height, pos);
    assert (b.bits + bits)[1..] == bits && (b.hashes + hashes)[1..] == hashes;
    if height == 0 {
      MatchedOne(flags, pos);
    }
  }

  lemma RecoveredPair(h: (Hash, Hash) -> Hash, txids: seq<Hash>, flags: seq<bool>, height: nat, pos: nat,
                      bits: seq<bool>, hashes: seq<Hash>)
    requires PairInjective(h) && Distinct(txids)
    requires |flags| == |txids| && height > 0 && InTree(|txids|, height, pos) && ParentOfMatch(flags, height, pos)
    requires InTree(|txids|, height - 1, 2 * pos) && InTree(|txids|, height - 1, 2 * pos + 1)
    requires var left := Build(h, txids, flags, height - 1, 2 * pos);
      var right := Build(h, txids, flags, height - 1, 2 * pos + 1);
      && Recovered(Extract(h, |txids|, height - 1, 2 * pos, left.bits + (right.bits + bits), left.hashes + (right.hashes + hashes)),
                   h, txids, flags, height - 1, 2 * pos, right.bits + bits, right.hashes + hashes)
      && Recovered(Extract(h, |txids|, height - 1, 2 * pos + 1, right.bits + bits, right.hashes + hashes),
                   h, txids, flags, height - 1, 2 * pos + 1, bits, hashes)
    ensures var b := Build(h, txids, flags, height, pos);
      Recovered(Extract(h, |txids|, height, pos, b.bits + bits, b.hashes + hashes), h, txids, flags, height, pos, bits, hashes)
  {
    hide PairInjective, Distinct, InTree, First, Last, Matched, Recovered, Pair, CalcHash, Extract;
    var n := |txids|;
    var left := Build(h, txids, flags, height - 1, 2 * pos);
    var right := Build(h, txids, flags, height - 1, 2 * pos + 1);
    var midBits, midHashes := right.bits + bits, right.hashes + hashes;
    var l := Extract(h, n, height - 1, 2 * pos, left.bits + midBits, left.hashes + midHashes);
    RecoveredRest(l, h, txids, flags, height - 1, 2 * pos, midBits, midHashes);
    var r := Extract(h, n, height - 1, 2 * pos + 1, midBits, midHashes);
    JoinRecovered(h, txids, flags, height, pos, l, r, midBits, midHashes, bits, hashes);
    Regroup(true, left.bits, right.bits, bits);
    assert (left.hashes + right.hashes) + hashes == left.hashes + midHashes;
    ExtractPair(h, n, height, pos, left.bits + midBits, left.hashes + midHashes);
  }

  lemma Regroup(head: bool, a: seq<bool>, b: seq<bool>, c: seq<bool>)
    ensures ([head] + (a + b)) + c == [head] + (a + (b + c))
  {
  }

  lemma ExtractPair(h: (Hash, Hash) -> Hash, n: nat, height: nat, pos: nat, bits: seq<bool>, hashes: seq<Hash>)
    requires height > 0 && InTree(n, height - 1, 2 * pos + 1)
    ensures var l := Extract(h, n, height - 1, 2 * pos, bits, hashes);
      Extract(h, n, height, pos, [true] + bits, hashes)
        == Pair(h, l, Extract(h, n, height - 1, 2 * pos + 1, l.bits, l.hashes))
  {
    assert ([true] + bits)[1..] == bits;
  }

  lemma RecoveredRest(e: Extraction, h: (Hash, Hash) -> Hash, txids: seq<Hash>, flags: seq<bool>, height: nat, pos: nat,
                      bits: seq<bool>, hashes: seq<Hash>)
    requires |flags| == |txids| && InTree(|txids|, height, pos)
    requires Recovered(e, h, txids, flags, height, pos, bits, hashes)
    ensures e.bits == bits && e.hashes == hashes
  {
  }

  lemma JoinRecovered(h: (Hash, Hash) -> Hash, txids: seq<Hash>, flags: seq<bool>, height: nat, pos: nat,
                      l: Extraction, r: Extraction, midBits: seq<bool>, midHashes: seq<Hash>, bits: seq<bool>, hashes: seq<Hash>)
    requires PairInjective(h) && Distinct(txids)
    requires |flags| == |txids| && height > 0 && InTree(|txids|, height, pos)
    requires InTree(|txids|, height - 1, 2 * pos) && InTree(|txids|, height - 1, 2 * pos + 1)
    requires Recovered(l, h, txids, flags, height - 1, 2 * pos, midBits, midHashes)
    requires Recovered(r, h, txids, flags, height - 1, 2 * pos + 1, bits, hashes)
    ensures Recovered(Pair(h, l, r), h, txids, flags, height, pos, bits, hashes)
  {
    hide PairInjective, Distinct, InTree, First, Last, Matched, Real;
    var n := |txids|;
    LeafRange(n, height, pos);
    LeafRange(n, height - 1, 2 * pos);
    SplitLeaves(n, height, pos);
    NodesDiffer(h, txids, height - 1, 2 * pos, 2 * pos + 1);
    MatchedSplit(flags, First(height, pos), Last(n, height - 1, 2 * pos), Last(n, height, pos));
    RealJoin(txids, l.matches, l.indexes, r.matches, r.indexes);
  }

  lemma RecoveredLone(h: (Hash, Hash) -> Hash, txids: seq<Hash>, flags: seq<bool>, height: nat, pos: nat,
                      bits: seq<bool>, hashes: seq<Hash>)
    requires |flags| == |txids| && height > 0 && InTree(|txids|, height, pos) && ParentOfMatch(flags, height, pos)
    requires InTree(|txids|, height - 1, 2 * pos) && !InTree(|txids|, height - 1, 2 * pos + 1)
    requires var left := Build(h, txids, flags, height - 1, 2 * pos);
      Recovered(Extract(h, |txids|, height - 1, 2 * pos, left.bits + bits, left.hashes + hashes),
                h, txids, flags, height - 1, 2 * pos, bits, hashes)
    ensures var b := Build(h, txids, flags, height, pos);
      Recovered(Extract(h, |txids|, height, pos, b.bits + bits, b.hashes + hashes), h, txids, flags, height, pos, bits, hashes)
  {
    hide InTree, First, Last, Matched;
    LeafRange(|txids|, height, pos);
    SplitLeaves(|txids|, height, pos);
    var left := Build(h, txids, flags, height - 1, 2 * pos);
    var b := Build(h, txids, flags, height, pos);
    assert (b.bits + bits)[1..] == left.bits + bits;
  }

  // Size of an encoding

  /** An encoding has at most one hash per leaf and at least one bit per hash; its hashes
      number at most one more than the product of matched leaves and height. */
  lemma {:induction false} BuildSize(h: (Hash, Hash) -> Hash, txids: seq<Hash>, flags: seq<bool>, height: nat, pos: nat)
    requires |flags| == |txids| && InTree(|txids|, height, pos)
    ensures First(height, pos) < Last(|flags|, height, pos) <= |flags|
    ensures var b := Build(h, txids, flags, height, pos);
      && 1 <= |b.hashes| <= |b.bits|
      && |b.hashes| <= Last(|txids|, height, pos) - First(height, pos)
      && |b.hashes| <= 1 + |Matched(flags, First(height, pos), Last(|flags|, height, pos))| * height
    decreases height
  {
    hide InTree, First, Last;
    LeafRange(|txids|, height, pos);
    if height > 0 && ParentOfMatch(flags, height, pos) {
      SplitLeaves(|txids|, height, pos);
      BuildSize(h, txids, flags, height - 1, 2 * pos);
      var lo, mid, hi := First(height, pos), Last(|txids|, height - 1, 2 * pos), Last(|txids|, height, pos);
      MatchedSplit(flags, lo, mid, hi);
      var l, r := |Matched(flags, lo, mid)|, |Matched(flags, mid, hi)|;
      if InTree(|txids|, height - 1, 2 * pos + 1) {
        BuildSize(h, txids, flags, height - 1, 2 * pos + 1);
        HashBound(l, r, height);
      } else {
        HashBound(l, 0, height);
      }
    }
  }

  lemma HashBound(l: nat, r: nat, height: nat)
    requires height > 0 && l + r >= 1
    ensures (1 + l * (height - 1)) + (1 + r * (height - 1)) <= 1 + (l + r) * height
    ensures l * (height - 1) <= l * height
  {
    assert (l + r) * height == l * (height - 1) + r * (height - 1) + (l + r);
  }

  /** How many nodes are descended into that have a single child. */
  function Singles(flags: seq<bool>, height: nat, pos: nat): nat
    requires InTree(|flags|, height, pos)
    decreases height
  {
    if height == 0 || !ParentOfMatch(flags, height, pos) then 0
    else
      Children(height, pos);
      Singles(flags, height - 1, 2 * pos)
        + (if InTree(|flags|, height - 1, 2 * pos + 1) then Singles(flags, height - 1, 2 * pos + 1) else 1)
  }

  /** N hashes take 2 N - 1 bits and one more for each single child: the documented bound of
      2 N - 1 bits holds exactly when no matched transaction is below one. */
  lemma {:induction false} BitsExactly(h: (Hash, Hash) -> Hash, txids: seq<Hash>, flags: seq<bool>, height: nat, pos: nat)
    requires |flags| == |txids| && InTree(|txids|, height, pos)
    ensures var b := Build(h, txids, flags, height, pos);
      |b.bits| == 2 * |b.hashes| - 1 + Singles(flags, height, pos)
    decreases height
  {
    hide InTree, ParentOfMatch, CalcHash;
    if height > 0 && ParentOfMatch(flags, height, pos) {
      SplitLeaves(|txids|, height, pos);
      BitsExactly(h, txids, flags, height - 1, 2 * pos);
      if InTree(|txids|, height - 1, 2 * pos + 1) {
        BitsExactly(h, txids, flags, height - 1, 2 * pos + 1);
      }
    }
  }

  /** Three transactions, the last matched: two hashes and four bits. */
  lemma BitBoundFails(h: (Hash, Hash) -> Hash)
    ensures InTree(3, 2, 0)
    ensures var b := Build(h, [1, 2, 3], [false, false, true], 2, 0);
      |b.hashes| == 2 && |b.bits| == 4
  {
    hide Matched;
    var flags := [false, false, true];
    assert Pow2(1) == 2 && Pow2(2) == 4;
    MatchedOne(flags, 0);
    MatchedOne(flags, 1);
    MatchedOne(flags, 2);
    MatchedSplit(flags, 0, 1, 2);
    MatchedSplit(flags, 0, 2, 3);
  }
}
