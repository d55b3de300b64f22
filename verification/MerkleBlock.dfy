/** A partial merkle tree as sent with a filtered block: its wire form, the checks a
    receiver makes, and the object that builds, packs and decodes it. */
module MerkleBlock {
  import opened Basics
  import opened Bits
  import opened Consensus
  import opened MerkleTree
  import opened PartialMerkle
  import opened Powers

  // Bits on the wire

  function Unpack(bytes: seq<bv8>): (bits: seq<bool>)
    ensures |bits| == 8 * |bytes|
  {
    seq(8 * |bytes|, p requires 0 <= p < 8 * |bytes| => BitOf(bytes[p / 8], p % 8))
  }

  /** The bits followed by zeroes up to a whole number of bytes. */
  function Padded(bits: seq<bool>): seq<bool> {
    bits + seq(8 * ((|bits| + 7) / 8) - |bits|, _ => false)
  }

  // What a receiver concludes

  datatype Outcome = Outcome(root: Hash, matches: seq<Hash>, indexes: seq<nat>, bad: bool)

  predicate Admissible(n: nat, bits: seq<bool>, hashes: seq<Hash>) {
    && 0 < n <= MAX_BLOCK_WEIGHT / MIN_TRANSACTION_WEIGHT
    && |hashes| <= n
    && |hashes| <= |bits|
  }

  /** All hashes were read, and all bits but the padding. */
  predicate Consumed(bits: seq<bool>, e: Extraction) {
    && |e.bits| <= |bits|
    && (|bits| - |e.bits| + 7) / 8 == (|bits| + 7) / 8
    && e.hashes == []
  }

  function Decode(h: (Hash, Hash) -> Hash, n: nat, bits: seq<bool>, hashes: seq<Hash>, bad: bool): Outcome {
    if !Admissible(n, bits, hashes) then Outcome(0, [], [], bad)
    else
      var e := Extract(h, n, TreeHeight(n), 0, bits, hashes);
      var root := if !bad && !e.bad && Consumed(bits, e) then e.hash else 0;
      Outcome(root, e.matches, e.indexes, bad || e.bad)
  }

  /** Soundness: for any bits and hashes whatsoever, a decoding that arrives at the root of a
      block with the announced number of transactions reports transactions of that block only,
      each at its own position, in ascending order. */
  lemma DecodeSound(h: (Hash, Hash) -> Hash, txids: seq<Hash>, bits: seq<bool>, hashes: seq<Hash>, bad: bool)
    requires PairInjective(h) && txids != [] && MerkleRoot(h, txids) != 0
    requires Decode(h, |txids|, bits, hashes, bad).root == MerkleRoot(h, txids)
    ensures var d := Decode(h, |txids|, bits, hashes, bad);
      Real(txids, d.matches, d.indexes) && Ascending(d.indexes)
  {
    var height := TreeHeight(|txids|);
    HeightCovers(|txids|, 0);
    ExtractSound(h, txids, height, 0, bits, hashes);
    ExtractOrdered(h, |txids|, height, 0, bits, hashes);
  }

  /** The same for any announced number n of transactions that gives a tree of the block's height, over distinct
      transactions: repeating the last ones, as the tree itself does, gains nothing. */
  lemma DecodeSoundAnnounced(h: (Hash, Hash) -> Hash, txids: seq<Hash>, n: nat, bits: seq<bool>, hashes: seq<Hash>, bad: bool)
    requires PairInjective(h) && Distinct(txids) && txids != [] && MerkleRoot(h, txids) != 0
    requires TreeHeight(n) == TreeHeight(|txids|) && Decode(h, n, bits, hashes, bad).root == MerkleRoot(h, txids)
    ensures var d := Decode(h, n, bits, hashes, bad);
      Real(txids, d.matches, d.indexes) && Ascending(d.indexes)
  {
    hide Distinct, PairInjective, Extract;
    var height := TreeHeight(|txids|);
    HeightCovers(|txids|, 0);
    HeightCovers(n, 0);
    ExtractSoundAnnounced(h, txids, n, height, 0, bits, hashes);
    ExtractOrdered(h, n, height, 0, bits, hashes);
  }

  /** Round trip: what is built from distinct transaction ids and any mask, packed into bytes
      and unpacked, decodes to the block's merkle root and exactly the matched transactions. */
  lemma RoundTrip(h: (Hash, Hash) -> Hash, txids: seq<Hash>, flags: seq<bool>, bytes: seq<bv8>)
    requires PairInjective(h) && Distinct(txids)
    requires 0 < |txids| == |flags| <= MAX_BLOCK_WEIGHT / MIN_TRANSACTION_WEIGHT
    requires InTree(|txids|, TreeHeight(|txids|), 0)
    requires Unpack(bytes) == Padded(Build(h, txids, flags, TreeHeight(|txids|), 0).bits)
    ensures var b := Build(h, txids, flags, TreeHeight(|txids|), 0);
      var d := Decode(h, |txids|, Unpack(bytes), b.hashes, false);
      && d.root == MerkleRoot(h, txids) && !d.bad
      && d.indexes == Matched(flags, 0, |flags|)
      && Real(txids, d.matches, d.indexes)
  {
    hide PairInjective, Distinct, Build, Extract, MerkleRoot, Unpack, TreeHeight, Matched, Real, InTree, Consumed, Decode, Admissible;
    var b := Build(h, txids, flags, TreeHeight(|txids|), 0);
    var pad := seq(8 * ((|b.bits| + 7) / 8) - |b.bits|, _ => false);
    RootRecovered(h, txids, flags, pad);
    RootAdmissible(h, txids, flags, pad);
    PaddingConsumed(b.bits, pad, Extract(h, |txids|, TreeHeight(|txids|), 0, b.bits + pad, b.hashes));
    DecodeAccepts(h, |txids|, b.bits + pad, b.hashes);
  }

  lemma RootRecovered(h: (Hash, Hash) -> Hash, txids: seq<Hash>, flags: seq<bool>, pad: seq<bool>)
    requires PairInjective(h) && Distinct(txids) && 0 < |txids| == |flags|
    requires InTree(|txids|, TreeHeight(|txids|), 0)
    ensures var b := Build(h, txids, flags, TreeHeight(|txids|), 0);
      var e := Extract(h, |txids|, TreeHeight(|txids|), 0, b.bits + pad, b.hashes);
      && !e.bad && e.hash == MerkleRoot(h, txids) && e.bits == pad && e.hashes == []
      && e.indexes == Matched(flags, 0, |flags|) && Real(txids, e.matches, e.indexes)
  {
    hide PairInjective, Distinct, Build, Extract, CalcHash, HeightFrom, Matched, Real, First, Last, InTree;
    var height := TreeHeight(|txids|);
    var b := Build(h, txids, flags, height, 0);
    BuildRecovered(h, txids, flags, height, 0, pad, []);
    assert b.hashes + [] == b.hashes;
    RootRange(|txids|);
  }

  lemma RootAdmissible(h: (Hash, Hash) -> Hash, txids: seq<Hash>, flags: seq<bool>, pad: seq<bool>)
    requires 0 < |txids| == |flags| <= MAX_BLOCK_WEIGHT / MIN_TRANSACTION_WEIGHT
    requires InTree(|txids|, TreeHeight(|txids|), 0)
    ensures var b := Build(h, txids, flags, TreeHeight(|txids|), 0);
      Admissible(|txids|, b.bits + pad, b.hashes)
  {
    hide Build, HeightFrom, First, Last, InTree;
    BuildSize(h, txids, flags, TreeHeight(|txids|), 0);
    RootRange(|txids|);
  }

  lemma PaddingConsumed(bits: seq<bool>, pad: seq<bool>, e: Extraction)
    requires |bits| + |pad| == 8 * ((|bits| + 7) / 8)
    requires e.bits == pad && e.hashes == []
    ensures Consumed(bits + pad, e)
  {
  }

  lemma DecodeAccepts(h: (Hash, Hash) -> Hash, n: nat, bits: seq<bool>, hashes: seq<Hash>)
    requires Admissible(n, bits, hashes)
    requires var e := Extract(h, n, TreeHeight(n), 0, bits, hashes); !e.bad && Consumed(bits, e)
    ensures var e := Extract(h, n, TreeHeight(n), 0, bits, hashes);
      Decode(h, n, bits, hashes, false) == Outcome(e.hash, e.matches, e.indexes, false)
  {
  }

  lemma RootRange(n: nat)
    requires n > 0
    ensures First(TreeHeight(n), 0) == 0 && Last(n, TreeHeight(n), 0) == n
  {
    HeightCovers(n, 0);
  }

  /** The number of hashes sent is bounded by the number of transactions, and by one more
      than the number matched times the height of the tree. */
  lemma HashesSent(h: (Hash, Hash) -> Hash, txids: seq<Hash>, flags: seq<bool>)
    requires 0 < |txids| == |flags| && InTree(|txids|, TreeHeight(|txids|), 0)
    ensures var sent := |Build(h, txids, flags, TreeHeight(|txids|), 0).hashes|;
      sent <= |txids| && sent <= 1 + |Matched(flags, 0, |flags|)| * TreeHeight(|txids|)
  {
    BuildSize(h, txids, flags, TreeHeight(|txids|), 0);
    RootRange(|txids|);
  }

  // The object

  class CPartialMerkleTree {
    const h: (Hash, Hash) -> Hash
    var nTransactions: nat
    var vBits: seq<bool>
    var vHash: seq<Hash>
    var fBad: bool

    constructor Default(h: (Hash, Hash) -> Hash)
      ensures this.h == h && nTransactions == 0 && vBits == [] && vHash == [] && fBad
    {
      this.h := h;
      nTransactions, vBits, vHash, fBad := 0, [], [], true;
    }

    /** The partial tree of a block's transactions and a mask over them. */
    constructor OfBlock(h: (Hash, Hash) -> Hash, txids: seq<Hash>, flags: seq<bool>)
      requires 0 < |txids| == |flags|
      ensures this.h == h && nTransactions == |txids| && !fBad
      ensures InTree(|txids|, TreeHeight(|txids|), 0)
      ensures Encoding(vBits, vHash) == Build(h, txids, flags, TreeHeight(|txids|), 0)
    {
      this.h := h;
      nTransactions, vBits, vHash, fBad := |txids|, [], [], false;
      new;
      HeightCovers(|txids|, 0);
      var nHeight := ComputeHeight();
      TraverseAndBuild(nHeight, 0, txids, flags);
    }

    method ComputeHeight() returns (nHeight: nat)
      ensures nHeight == TreeHeight(nTransactions)
    {
      nHeight := 0;
      while CalcTreeWidth(nTransactions, nHeight) > 1
        invariant HeightFrom(nTransactions, nHeight) == TreeHeight(nTransactions)
        decreases if Pow2(nHeight) < nTransactions then nTransactions - Pow2(nHeight) else 0
      {
        WidthMeaning(nTransactions, nHeight, 1);
        nHeight := nHeight + 1;
      }
    }

    /** Whether any leaf under the node is flagged. */
    method AnyMatch(height: nat, pos: nat, flags: seq<bool>) returns (any: bool)
      requires nTransactions == |flags| && InTree(|flags|, height, pos)
      ensures any == ParentOfMatch(flags, height, pos)
    {
      hide InTree, First, Matched;
      LeafRange(|flags|, height, pos);
      var lo, end := First(height, pos), (pos + 1) * Pow2(height);
      any := false;
      var p := lo;
      MatchedNone(flags, p);
      while p < end && p < nTransactions
        invariant lo <= p <= Last(|flags|, height, pos)
        invariant any == (Matched(flags, lo, p) != [])
      {
        MatchedSplit(flags, lo, p, p + 1);
        MatchedOne(flags, p);
        any := any || flags[p];
        p := p + 1;
      }
    }

    method TraverseAndBuild(height: nat, pos: nat, txids: seq<Hash>, flags: seq<bool>)
      requires nTransactions == |txids| == |flags| && InTree(|txids|, height, pos)
      modifies this`vBits, this`vHash
      ensures Encoding(vBits, vHash) == Append(old(Encoding(vBits, vHash)), Build(h, txids, flags, height, pos))
      decreases height
    {
      hide InTree, ParentOfMatch, CalcTreeWidth, CalcHash, Build, Append;
      ghost var start := Encoding(vBits, vHash);
      var fParentOfMatch := AnyMatch(height, pos, flags);
      BuildCases(h, txids, flags, height, pos);
      vBits := vBits + [fParentOfMatch];
      if height == 0 || !fParentOfMatch {
        vHash := vHash + [CalcHash(h, txids, height, pos)];
        AppendPieces(start, [fParentOfMatch], vHash[|start.hashes|..]);
      } else {
        AppendPieces(start, [fParentOfMatch], []);
        ghost var head := Encoding([fParentOfMatch], []);
        SplitLeaves(|txids|, height, pos);
        WidthTree(nTransactions, height - 1, 2 * pos + 1);
        TraverseAndBuild(height - 1, 2 * pos, txids, flags);
        ghost var left := Build(h, txids, flags, height - 1, 2 * pos);
        AppendAssociates(start, head, left);
        if 2 * pos + 1 < CalcTreeWidth(nTransactions, height - 1) {
          TraverseAndBuild(height - 1, 2 * pos + 1, txids, flags);
          ghost var right := Build(h, txids, flags, height - 1, 2 * pos + 1);
          AppendAssociates(start, Append(head, left), right);
          AppendAssociates(head, left, right);
        }
      }
    }

    /** Consumes bits and hashes from the given counters on, appending to the two lists. */
    method TraverseAndExtract(height: nat, pos: nat, nBitsUsed: nat, nHashUsed: nat, vMatch: seq<Hash>, vnIndex: seq<nat>)
      returns (hash: Hash, bitsUsed: nat, hashUsed: nat, matches: seq<Hash>, indexes: seq<nat>)
      requires nBitsUsed <= |vBits| && nHashUsed <= |vHash|
      modifies this`fBad
      ensures nBitsUsed <= bitsUsed <= |vBits| && nHashUsed <= hashUsed <= |vHash|
      ensures var e := Extract(h, nTransactions, height, pos, vBits[nBitsUsed..], vHash[nHashUsed..]);
        && e == Extraction(hash, vBits[bitsUsed..], vHash[hashUsed..], e.matches, e.indexes, e.bad)
        && matches == vMatch + e.matches && indexes == vnIndex + e.indexes
        && fBad == (old(fBad) || e.bad)
      decreases height
    {
      hide InTree, CalcTreeWidth, Extract;
      ghost var bits, hashes := vBits[nBitsUsed..], vHash[nHashUsed..];
      ExtractCases(h, nTransactions, height, pos, bits, hashes);
      hash, bitsUsed, hashUsed, matches, indexes := 0, nBitsUsed, nHashUsed, vMatch, vnIndex;
      if nBitsUsed >= |vBits| {
        fBad := true;
        return;
      }
      var fParentOfMatch := vBits[bitsUsed];
      bitsUsed := bitsUsed + 1;
      if height == 0 || !fParentOfMatch {
        if hashUsed >= |vHash| {
          fBad := true;
          return;
        }
        hash := vHash[hashUsed];
        hashUsed := hashUsed + 1;
        if height == 0 && fParentOfMatch {
          matches := matches + [hash];
          indexes := indexes + [pos];
        }
      } else {
        WidthTree(nTransactions, height - 1, 2 * pos + 1);
        assert bits[1..] == vBits[bitsUsed..];
        var left, right;
        left, bitsUsed, hashUsed, matches, indexes := TraverseAndExtract(height - 1, 2 * pos, bitsUsed, hashUsed, matches, indexes);
        ghost var l := Extract(h, nTransactions, height - 1, 2 * pos, bits[1..], hashes);
        if 2 * pos + 1 < CalcTreeWidth(nTransactions, height - 1) {
          right, bitsUsed, hashUsed, matches, indexes :=
            TraverseAndExtract(height - 1, 2 * pos + 1, bitsUsed, hashUsed, matches, indexes);
          if right == left { fBad := true; }
        } else {
          right := left;
        }
        hash := h(left, right);
      }
    }

    /** Decodes the tree. The list of matches starts empty, that of positions is appended to. */
    method ExtractMatches(vnIndex: seq<nat>) returns (root: Hash, vMatch: seq<Hash>, indexes: seq<nat>)
      modifies this`fBad
      ensures var d := Decode(h, nTransactions, vBits, vHash, old(fBad));
        && root == d.root && vMatch == d.matches && indexes == vnIndex + d.indexes && fBad == d.bad
    {
      hide Extract, TreeHeight;
      root, vMatch, indexes := 0, [], vnIndex;
      if nTransactions == 0 { return; }
      if nTransactions > MAX_BLOCK_WEIGHT / MIN_TRANSACTION_WEIGHT { return; }
      if |vHash| > nTransactions { return; }
      if |vBits| < |vHash| { return; }
      var nHeight := ComputeHeight();
      assert vBits[0..] == vBits && vHash[0..] == vHash;
      var hashMerkleRoot, nBitsUsed, nHashUsed;
      hashMerkleRoot, nBitsUsed, nHashUsed, vMatch, indexes := TraverseAndExtract(nHeight, 0, 0, 0, vMatch, indexes);
      if fBad { return; }
      if (nBitsUsed + 7) / 8 != (|vBits| + 7) / 8 { return; }
      if nHashUsed != |vHash| { return; }
      root := hashMerkleRoot;
    }

    /** The flag bits as bytes, least significant bit first. */
    method PackBits() returns (bytes: seq<bv8>)
      ensures Unpack(bytes) == Padded(vBits)
    {
      hide BitOf, Mask;
      var vBytes := new bv8[(|vBits| + 7) / 8](_ => 0);
      forall k | 0 <= k < 8 ensures !BitOf(0, k) { EmptyByte(k); }
      var p := 0;
      while p < |vBits|
        invariant p <= |vBits|
        invariant forall q | 0 <= q < 8 * vBytes.Length :: BitOf(vBytes[q / 8], q % 8) == (q < p && vBits[q])
      {
        var word := vBytes[p / 8];
        if vBits[p] { vBytes[p / 8] := word | Mask(p % 8); }
        forall q | 0 <= q < 8 * vBytes.Length
          ensures BitOf(vBytes[q / 8], q % 8) == (q < p + 1 && vBits[q])
        {
          BitAfterSet(word, p % 8, q % 8);
          SamePosition(p, q);
        }
        p := p + 1;
      }
      bytes := vBytes[..];
    }

    /** Replaces the flag bits by those of the bytes received. */
    method Receive(n: nat, hashes: seq<Hash>, bytes: seq<bv8>)
      modifies this
      ensures nTransactions == n && vHash == hashes && vBits == Unpack(bytes) && !fBad
    {
      nTransactions, vHash := n, hashes;
      var bits := [];
      var p := 0;
      while p < 8 * |bytes|
        invariant p <= 8 * |bytes|
        invariant bits == Unpack(bytes)[..p]
        invariant nTransactions == n && vHash == hashes
      {
        assert Unpack(bytes)[..p + 1] == Unpack(bytes)[..p] + [Unpack(bytes)[p]];
        bits := bits + [bytes[p / 8] & Mask(p % 8) != 0];
        p := p + 1;
      }
      vBits, fBad := bits, false;
    }
  }

  lemma WidthTree(n: nat, height: nat, pos: nat)
    ensures pos < CalcTreeWidth(n, height) <==> InTree(n, height, pos)
  {
    WidthMeaning(n, height, pos);
  }
}
