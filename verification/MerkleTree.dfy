/** Partial merkle trees: the full tree's node hashes, the depth-first encoding of a
    subset of its leaves, and its decoding from arbitrary bits and hashes. */
module MerkleTree {
  import opened Powers

  type Hash = nat

  /** Hashing a pair of nodes; the null hash is 0. */
  ghost predicate PairInjective(h: (Hash, Hash) -> Hash) {
    forall a, b, c, d :: h(a, b) == h(c, d) ==> a == c && b == d
  }

  // Tree shape

  /** The number of nodes at a height above n leaves. */
  function CalcTreeWidth(n: nat, height: nat): nat {
    (n + Pow2(height) - 1) / Pow2(height)
  }

  /** A node exists exactly when its first leaf does. */
  lemma WidthMeaning(n: nat, height: nat, pos: nat)
    ensures pos < CalcTreeWidth(n, height) <==> pos * Pow2(height) < n
  {
    CeilDivision(n, Pow2(height), pos);
  }

  lemma CeilDivision(n: nat, d: nat, pos: nat)
    requires d >= 1
    ensures pos < (n + d - 1) / d <==> pos * d < n
  {
    var q := (n + d - 1) / d;
    DivisionBounds(n + d - 1, d);
    if pos < q {
      MulMonotone(pos + 1, q, d);
      assert (pos + 1) * d == pos * d + d;
    } else {
      MulMonotone(q, pos, d);
      assert (q + 1) * d == q * d + d;
    }
  }

  /** Node (height, pos) exists over n leaves. */
  predicate InTree(n: nat, height: nat, pos: nat) {
    pos * Pow2(height) < n
  }

  /** Children sit over the two halves of their parent's leaves. */
  lemma Children(height: nat, pos: nat)
    requires height > 0
    ensures (2 * pos) * Pow2(height - 1) == pos * Pow2(height)
    ensures (2 * pos + 2) * Pow2(height - 1) == (pos + 1) * Pow2(height)
  {
    var p := Pow2(height - 1);
    assert Pow2(height) == 2 * p;
    assert (2 * pos) * p == pos * (2 * p);
    assert (2 * pos + 2) * p == (pos + 1) * (2 * p);
  }

  /** The smallest height with a single node. */
  function HeightFrom(n: nat, h: nat): nat
    decreases if Pow2(h) < n then n - Pow2(h) else 0
  {
    if CalcTreeWidth(n, h) > 1 then
      WidthMeaning(n, h, 1);
      HeightFrom(n, h + 1)
    else h
  }

  function TreeHeight(n: nat): nat { HeightFrom(n, 0) }

  lemma {:induction false} HeightCovers(n: nat, h: nat)
    requires n > 0
    ensures InTree(n, HeightFrom(n, h), 0) && !InTree(n, HeightFrom(n, h), 1)
    decreases if Pow2(h) < n then n - Pow2(h) else 0
  {
    WidthMeaning(n, h, 1);
    if CalcTreeWidth(n, h) > 1 { HeightCovers(n, h + 1); }
  }

  // The full tree

  function CalcHash(h: (Hash, Hash) -> Hash, txids: seq<Hash>, height: nat, pos: nat): Hash
    requires InTree(|txids|, height, pos)
  {
    if height == 0 then txids[pos]
    else
      Children(height, pos);
      var left := CalcHash(h, txids, height - 1, 2 * pos);
      var right := if InTree(|txids|, height - 1, 2 * pos + 1) then CalcHash(h, txids, height - 1, 2 * pos + 1) else left;
      h(left, right)
  }

  function MerkleRoot(h: (Hash, Hash) -> Hash, txids: seq<Hash>): Hash
    requires txids != []
  {
    HeightCovers(|txids|, 0);
    CalcHash(h, txids, TreeHeight(|txids|), 0)
  }

  ghost predicate Distinct(txids: seq<Hash>) {
    forall i, j | 0 <= i < j < |txids| :: txids[i] != txids[j]
  }

  lemma Injected(h: (Hash, Hash) -> Hash, a: Hash, b: Hash, c: Hash, d: Hash)
    requires PairInjective(h) && h(a, b) == h(c, d)
    ensures a == c && b == d
  {
  }

  /** Over distinct leaves, different nodes of one height have different hashes. */
  lemma {:induction false} NodesDiffer(h: (Hash, Hash) -> Hash, txids: seq<Hash>, height: nat, p: nat, q: nat)
    requires PairInjective(h) && Distinct(txids) && p != q
    requires InTree(|txids|, height, p) && InTree(|txids|, height, q)
    ensures CalcHash(h, txids, height, p) != CalcHash(h, txids, height, q)
    decreases height
  {
    hide PairInjective;
    if height > 0 {
      Children(height, p);
      Children(height, q);
      NodesDiffer(h, txids, height - 1, 2 * p, 2 * q);
      if CalcHash(h, txids, height, p) == CalcHash(h, txids, height, q) {
        NodeEqual(h, txids, height, p, q);
        assert false;
      }
    }
  }

  lemma NodeEqual(h: (Hash, Hash) -> Hash, txids: seq<Hash>, height: nat, p: nat, q: nat)
    requires PairInjective(h) && height > 0
    requires InTree(|txids|, height, p) && InTree(|txids|, height, q)
    requires CalcHash(h, txids, height, p) == CalcHash(h, txids, height, q)
    ensures InTree(|txids|, height - 1, 2 * p) && InTree(|txids|, height - 1, 2 * q)
    ensures CalcHash(h, txids, height - 1, 2 * p) == CalcHash(h, txids, height - 1, 2 * q)
  {
    Children(height, p);
    Children(height, q);
  }
}
