/** The tree of block index entries with its skip pointers, and the active chain. */
module BlockChain {
  import opened Powers

  type Hash = nat

  // Skip heights

  /** Bitwise and. */
  function And(x: nat, y: nat): (r: nat)
    ensures r <= x && r <= y
  {
    if x == 0 || y == 0 then 0
    else 2 * And(x / 2, y / 2) + (if x % 2 == 1 && y % 2 == 1 then 1 else 0)
  }

  /** Zero has no bits for minus one to keep. */
  function InvertLowestOne(n: nat): (r: nat)
    ensures n > 0 ==> r < n
  {
    if n == 0 then 0 else And(n, n - 1)
  }

  lemma {:induction false} AndSelf(x: nat)
    ensures And(x, x) == x
  {
    if x > 0 { AndSelf(x / 2); }
  }

  /** Exactly the lowest one bit of a number is cleared. */
  lemma {:induction false} LowestOneCleared(n: nat) returns (k: nat)
    requires n > 0
    ensures n % Pow2(k) == 0 && (n / Pow2(k)) % 2 == 1 && InvertLowestOne(n) == n - Pow2(k)
  {
    if n % 2 == 1 {
      k := 0;
      if n > 1 {
        assert (n - 1) / 2 == n / 2;
        AndSelf(n / 2);
      }
    } else {
      var j := LowestOneCleared(n / 2);
      k := j + 1;
      assert (n - 1) / 2 == n / 2 - 1;
      DoubleMultiple(n / 2, Pow2(j));
    }
  }

  lemma DoubleMultiple(m: nat, p: nat)
    requires p >= 1 && m % p == 0
    ensures (2 * m) % (2 * p) == 0 && (2 * m) / (2 * p) == m / p
  {
    var q := m / p;
    assert m == q * p;
    assert q * (2 * p) == 2 * (q * p);
    DivisionUnique(2 * m, 2 * p, q, 0);
  }

  function GetSkipHeight(height: int): (r: nat)
    ensures height > 0 ==> r < height
  {
    if height < 2 then 0
    else if height % 2 == 1 then InvertLowestOne(InvertLowestOne(height - 1)) + 1
    else InvertLowestOne(height)
  }

  /** The skip height of an even height is that height without its lowest one bit. */
  lemma SkipEven(height: nat) returns (k: nat)
    requires height > 0 && height % 2 == 0
    ensures k >= 1 && height % Pow2(k) == 0 && (height / Pow2(k)) % 2 == 1 && GetSkipHeight(height) == height - Pow2(k)
  {
    k := LowestOneCleared(height);
  }

  /** That of an odd height is one more than the height below it without its two lowest one bits. */
  lemma SkipOdd(height: nat) returns (k: nat, j: nat)
    requires height > 1 && height % 2 == 1
    ensures (height - 1) % Pow2(k) == 0 && ((height - 1) / Pow2(k)) % 2 == 1 && GetSkipHeight(height) == height - Pow2(k) - j
    ensures var rest := height - 1 - Pow2(k);
      rest >= 0 && (if rest == 0 then j == 0 else exists i :: j == Pow2(i) && rest % j == 0 && (rest / j) % 2 == 1)
  {
    k := LowestOneCleared(height - 1);
    var rest := height - 1 - Pow2(k);
    if rest == 0 {
      j := 0;
    } else {
      var i := LowestOneCleared(rest);
      j := Pow2(i);
    }
  }

  // Block index entries

  class BlockIndex {
    const pprev: BlockIndex?
    const nHeight: nat
    const hash: Hash
    var pskip: BlockIndex?

    constructor (pprev: BlockIndex?, hash: Hash)
      ensures this.pprev == pprev && this.hash == hash && pskip == null
      ensures nHeight == if pprev == null then 0 else pprev.nHeight + 1
    {
      this.pprev, this.hash, pskip := pprev, hash, null;
      nHeight := if pprev == null then 0 else pprev.nHeight + 1;
    }

    /** Finds the ancestor at a height, by skip pointers where they help; none outside the range. */
    method GetAncestor(height: int, ghost tree: set<BlockIndex>) returns (r: BlockIndex?)
      requires TreeOk(tree) && this in tree
      ensures r == if 0 <= height <= nHeight then Ancestor(this, height) else null
    {
      hide SkipOk;
      if height > nHeight || height < 0 { return null; }
      var pindexWalk: BlockIndex := this;
      var heightWalk := nHeight;
      InTree(tree, this);
      while heightWalk > height
        invariant height <= heightWalk == pindexWalk.nHeight && pindexWalk in tree && Rooted(pindexWalk)
        invariant Ancestor(pindexWalk, height) == Ancestor(this, height)
      {
        var heightSkip := GetSkipHeight(heightWalk);
        var heightSkipPrev := GetSkipHeight(heightWalk - 1);
        SkipIs(tree, pindexWalk);
        if pindexWalk.pskip != null && (heightSkip == height ||
             (heightSkip > height && !(heightSkipPrev < heightSkip - 2 && heightSkipPrev >= height))) {
          AncestorOf(pindexWalk, heightSkip, height);
          AncestorInTree(tree, pindexWalk, heightSkip);
          pindexWalk := pindexWalk.pskip;
          heightWalk := heightSkip;
        } else {
          InTree(tree, pindexWalk);
          pindexWalk := pindexWalk.pprev;
          heightWalk := heightWalk - 1;
        }
        InTree(tree, pindexWalk);
      }
      return pindexWalk;
    }

    /** Sets the skip pointer of an entry whose ancestors are in the tree. */
    method BuildSkip(ghost tree: set<BlockIndex>)
      requires TreeOk(tree) && Rooted(this) && (pprev != null ==> pprev in tree)
      modifies this`pskip
      ensures pprev != null ==> pskip == Ancestor(this, GetSkipHeight(nHeight))
      ensures pprev == null ==> pskip == old(pskip)
    {
      if pprev != null {
        pskip := pprev.GetAncestor(GetSkipHeight(nHeight), tree);
      }
    }
  }

  /** Heights count the steps down to an entry without a parent. */
  ghost predicate Rooted(b: BlockIndex)
    decreases b.nHeight
  {
    if b.pprev == null then b.nHeight == 0
    else b.nHeight == b.pprev.nHeight + 1 && Rooted(b.pprev)
  }

  /** The ancestor at a height, one parent at a time. */
  ghost function Ancestor(b: BlockIndex, height: nat): (r: BlockIndex)
    requires Rooted(b) && height <= b.nHeight
    ensures Rooted(r) && r.nHeight == height
    decreases b.nHeight
  {
    if b.nHeight == height then b else Ancestor(b.pprev, height)
  }

  lemma {:induction false} AncestorOf(b: BlockIndex, mid: nat, height: nat)
    requires Rooted(b) && height <= mid <= b.nHeight
    ensures Ancestor(Ancestor(b, mid), height) == Ancestor(b, height)
    decreases b.nHeight
  {
    if b.nHeight > mid { AncestorOf(b.pprev, mid, height); }
  }

  ghost predicate SkipOk(b: BlockIndex)
    reads b
  {
    Rooted(b) && (b.pskip != null ==> b.nHeight > 0 && b.pskip == Ancestor(b, GetSkipHeight(b.nHeight)))
  }

  /** A set of entries closed under parents, all skip pointers unset or right. */
  ghost predicate TreeOk(tree: set<BlockIndex>)
    reads tree
  {
    forall b | b in tree :: SkipOk(b) && (b.pprev != null ==> b.pprev in tree)
  }

  lemma InTree(tree: set<BlockIndex>, b: BlockIndex)
    requires TreeOk(tree) && b in tree
    ensures Rooted(b) && (b.nHeight > 0 ==> b.pprev != null && b.pprev in tree)
  {
    assert SkipOk(b);
  }

  lemma SkipIs(tree: set<BlockIndex>, b: BlockIndex)
    requires TreeOk(tree) && b in tree
    ensures Rooted(b)
    ensures b.pskip != null ==> b.nHeight > 0 && b.pskip == Ancestor(b, GetSkipHeight(b.nHeight))
  {
    assert SkipOk(b);
  }

  lemma {:induction false} AncestorInTree(tree: set<BlockIndex>, b: BlockIndex, height: nat)
    requires TreeOk(tree) && b in tree && Rooted(b) && height <= b.nHeight
    ensures Ancestor(b, height) in tree
    decreases b.nHeight
  {
    InTree(tree, b);
    if b.nHeight > height { AncestorInTree(tree, b.pprev, height); }
  }

  /** The block tree, growing by one entry at a time. */
  class BlockTree {
    var blocks: set<BlockIndex>

    constructor ()
      ensures blocks == {} && TreeOk(blocks)
    {
      blocks := {};
    }

    /** Adds an entry below one of the tree, or a root. */
    method Add(pprev: BlockIndex?, hash: Hash) returns (b: BlockIndex)
      requires TreeOk(blocks) && (pprev != null ==> pprev in blocks)
      modifies this
      ensures fresh(b) && blocks == old(blocks) + {b} && TreeOk(blocks)
      ensures b.pprev == pprev && b.hash == hash && Rooted(b)
      ensures pprev != null ==> b.pskip == Ancestor(b, GetSkipHeight(b.nHeight))
    {
      b := new BlockIndex(pprev, hash);
      if pprev != null { InTree(blocks, pprev); }
      b.BuildSkip(blocks);
      blocks := blocks + {b};
    }
  }

  // Shared ancestors

  ghost predicate IsAncestor(a: BlockIndex, b: BlockIndex)
    requires Rooted(b)
  {
    a.nHeight <= b.nHeight && Ancestor(b, a.nHeight) == a
  }

  /** The highest entry both descend from, or none. */
  ghost predicate HighestShared(r: BlockIndex?, a: BlockIndex, b: BlockIndex)
    requires Rooted(a) && Rooted(b)
  {
    && (r != null ==> IsAncestor(r, a) && IsAncestor(r, b))
    && NoneAbove(r, a, b)
  }

  ghost predicate NoneAbove(r: BlockIndex?, a: BlockIndex, b: BlockIndex)
    requires Rooted(a) && Rooted(b)
  {
    forall h: nat | h <= a.nHeight && h <= b.nHeight && Ancestor(a, h) == Ancestor(b, h) :: r != null && h <= r.nHeight
  }

  lemma NoneAboveStart(a: BlockIndex, b: BlockIndex)
    requires Rooted(a) && Rooted(b)
    ensures a.nHeight > b.nHeight ==> NoneAbove(Ancestor(a, b.nHeight), a, b)
    ensures a.nHeight <= b.nHeight ==> NoneAbove(a, a, b)
  {
  }

  lemma NoneAboveStep(pa: BlockIndex, pb: BlockIndex, a: BlockIndex, b: BlockIndex)
    requires Rooted(a) && Rooted(b) && IsAncestor(pa, a) && IsAncestor(pb, b)
    requires pa != pb && pa.nHeight == pb.nHeight && NoneAbove(pa, a, b)
    ensures NoneAbove(pa.pprev, a, b)
  {
    ParentIsAncestor(pa, a);
  }

  method LastCommonAncestor(a: BlockIndex, b: BlockIndex, ghost tree: set<BlockIndex>) returns (r: BlockIndex?)
    requires TreeOk(tree) && a in tree && b in tree && Rooted(a) && Rooted(b)
    ensures HighestShared(r, a, b)
  {
    hide NoneAbove;
    NoneAboveStart(a, b);
    var pa: BlockIndex?, pb: BlockIndex? := a, b;
    if a.nHeight > b.nHeight {
      pa := a.GetAncestor(b.nHeight, tree);
    } else if b.nHeight > a.nHeight {
      pb := b.GetAncestor(a.nHeight, tree);
    }
    while pa != pb && pa != null && pb != null
      invariant pa == null <==> pb == null
      invariant pa != null ==> pa.nHeight == pb.nHeight && IsAncestor(pa, a) && IsAncestor(pb, b)
      invariant NoneAbove(pa, a, b)
      decreases if pa == null then 0 else pa.nHeight + 1
    {
      NoneAboveStep(pa, pb, a, b);
      ParentIsAncestor(pa, a);
      ParentIsAncestor(pb, b);
      pa := pa.pprev;
      pb := pb.pprev;
    }
    assert pa == pb;
    return pa;
  }

  lemma ParentIsAncestor(p: BlockIndex, b: BlockIndex)
    requires Rooted(b) && IsAncestor(p, b)
    ensures p.pprev == null <==> p.nHeight == 0
    ensures p.pprev != null ==> p.pprev.nHeight == p.nHeight - 1 && IsAncestor(p.pprev, b)
  {
    if p.pprev != null { AncestorOf(b, p.nHeight, p.nHeight - 1); }
  }
}
