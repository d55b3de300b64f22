/** The active chain: an array of block index entries by height. */
module ActiveChain {
  import opened BlockChain
  import opened Powers

  /** Entry i is the ancestor at height i of the block at the end. */
  ghost predicate IsChain(v: seq<BlockIndex?>) {
    v == [] || (v[|v| - 1] != null && Rooted(v[|v| - 1]) && Leads(v, v[|v| - 1]))
  }

  ghost predicate Leads(v: seq<BlockIndex?>, tip: BlockIndex)
    requires Rooted(tip)
  {
    |v| == tip.nHeight + 1 && forall i | 0 <= i < |v| :: v[i] == Ancestor(tip, i)
  }

  /** From height h on the entries are the tip's ancestors; below they are as before. */
  ghost predicate Rewritten(v: seq<BlockIndex?>, before: seq<BlockIndex?>, tip: BlockIndex, h: nat)
    requires Rooted(tip)
  {
    && |v| == |before| == tip.nHeight + 1 && h <= |v|
    && (forall i | h <= i < |v| :: v[i] == Ancestor(tip, i))
    && (forall i | 0 <= i < h :: v[i] == before[i])
  }

  /** Stopping at an entry already in place leaves the whole chain right. */
  lemma StopEarly(v: seq<BlockIndex?>, before: seq<BlockIndex?>, old': seq<BlockIndex?>, tip: BlockIndex, p: BlockIndex)
    requires Rooted(tip) && IsAncestor(p, tip) && Rewritten(v, before, tip, p.nHeight + 1)
    requires IsChain(old') && v[p.nHeight] == p
    requires forall i | 0 <= i < |before| :: before[i] == if i < |old'| then old'[i] else null
    ensures Leads(v, tip)
  {
    forall i | 0 <= i < |v| ensures v[i] == Ancestor(tip, i) {
      if i <= p.nHeight {
        assert before[p.nHeight] == p && before[i] == v[i];
        var last := old'[|old'| - 1];
        AncestorOf(last, p.nHeight, i);
        AncestorOf(tip, p.nHeight, i);
      }
    }
  }

  lemma RewriteOne(v: seq<BlockIndex?>, before: seq<BlockIndex?>, tip: BlockIndex, p: BlockIndex)
    requires Rooted(tip) && IsAncestor(p, tip) && Rewritten(v, before, tip, p.nHeight + 1)
    ensures Rewritten(v[p.nHeight := p], before, tip, p.nHeight)
  {
  }

  /** The least exponent whose power of two is at least n. */
  function CeilLog2(n: nat): (k: nat)
    ensures Pow2(k) >= n && (k > 0 ==> Pow2(k - 1) < n)
  {
    if n <= 1 then 0 else 1 + CeilLog2((n + 1) / 2)
  }

  class CChain {
    var vChain: seq<BlockIndex?>

    constructor ()
      ensures vChain == [] && IsChain(vChain)
    {
      vChain := [];
    }

    function At(height: int): BlockIndex?
      reads this
    {
      if height < 0 || height >= |vChain| then null else vChain[height]
    }

    function Tip(): BlockIndex?
      reads this
    {
      if |vChain| > 0 then vChain[|vChain| - 1] else null
    }

    predicate Contains(b: BlockIndex)
      reads this
    {
      At(b.nHeight) == b
    }

    /** Makes the chain lead to a block, rewriting only down to the first entry already in place. */
    method SetTip(tip: BlockIndex?)
      requires IsChain(vChain) && (tip != null ==> Rooted(tip))
      modifies this
      ensures IsChain(vChain)
      ensures tip == null ==> vChain == []
      ensures tip != null ==> Leads(vChain, tip)
    {
      hide Leads, Rewritten, IsChain;
      if tip == null {
        vChain := [];
        Trivial();
        return;
      }
      ghost var former := vChain;
      var size := tip.nHeight + 1;
      vChain := if |vChain| >= size then vChain[..size] else vChain + seq(size - |vChain|, _ => null);
      ghost var before := vChain;
      RewriteStart(before, tip);
      var pindex: BlockIndex? := tip;
      RewriteShape(vChain, before, tip, size);
      while pindex != null && vChain[pindex.nHeight] != pindex
        invariant pindex != null ==> IsAncestor(pindex, tip) && Rewritten(vChain, before, tip, pindex.nHeight + 1)
        invariant pindex == null ==> Rewritten(vChain, before, tip, 0)
        invariant |vChain| == size
        decreases if pindex == null then 0 else pindex.nHeight + 1
      {
        RewriteOne(vChain, before, tip, pindex);
        ParentIsAncestor(pindex, tip);
        vChain := vChain[pindex.nHeight := pindex];
        pindex := pindex.pprev;
      }
      if pindex != null {
        StopEarly(vChain, before, former, tip, pindex);
      } else {
        RewrittenAll(vChain, before, tip);
      }
      LeadsChain(vChain, tip);
    }

    /** The highest block of the chain that a block descends from, or none. */
    method FindFork(b: BlockIndex?, ghost tree: set<BlockIndex>) returns (r: BlockIndex?)
      requires TreeOk(tree) && IsChain(vChain) && (b != null ==> b in tree && Rooted(b))
      ensures b == null ==> r == null
      ensures b != null && r != null ==> IsAncestor(r, b) && Contains(r)
      ensures b != null ==> NoneHigher(vChain, r, b)
    {
      hide NoneHigher;
      if b == null { return null; }
      var pindex: BlockIndex? := b;
      if b.nHeight > |vChain| - 1 {
        pindex := b.GetAncestor(|vChain| - 1, tree);
      }
      NoneHigherStart(vChain, b, pindex);
      while pindex != null && !Contains(pindex)
        invariant pindex != null ==> IsAncestor(pindex, b)
        invariant NoneHigher(vChain, pindex, b)
        decreases if pindex == null then 0 else pindex.nHeight + 1
      {
        ParentIsAncestor(pindex, b);
        NoneHigherStep(vChain, pindex, b);
        pindex := pindex.pprev;
      }
      return pindex;
    }

    /** Blocks from one back to the root: the first twelve one by one, then at doubling distances. */
    method GetLocator(b: BlockIndex?, ghost tree: set<BlockIndex>) returns (vHave: seq<Hash>, ghost blocks: seq<BlockIndex>)
      requires TreeOk(tree) && IsChain(vChain) && (b != null ==> b in tree && Rooted(b))
      requires forall i | 0 <= i < |vChain| :: vChain[i] in tree
      ensures |vHave| == |blocks| && forall i | 0 <= i < |blocks| :: vHave[i] == blocks[i].hash
      ensures b == null && vChain == [] ==> blocks == []
      ensures b != null || vChain != [] ==> LocatorOf(blocks, if b != null then b else Tip())
      ensures b != null ==> 1 <= |vHave| <= 12 + CeilLog2(b.nHeight + 1) && vHave[0] == b.hash
    {
      hide IsChain, LocatorOf;
      vHave, blocks := [], [];
      var pindex := if b == null then Tip() else b;
      if pindex != null {
        TipRooted(vChain);
        vHave, blocks := LocatorFrom(pindex, tree);
      }
    }

    method LocatorFrom(start: BlockIndex, ghost tree: set<BlockIndex>) returns (vHave: seq<Hash>, ghost blocks: seq<BlockIndex>)
      requires TreeOk(tree) && IsChain(vChain) && start in tree && Rooted(start)
      ensures |vHave| == |blocks| && forall i | 0 <= i < |blocks| :: vHave[i] == blocks[i].hash
      ensures LocatorOf(blocks, start)
      ensures 1 <= |vHave| <= 12 + CeilLog2(start.nHeight + 1) && vHave[0] == start.hash
    {
      hide TreeOk, IsChain, Descending, Spaced, LocatorOf;
      var nStep: nat := 1;
      vHave, blocks := [], [];
      var pindex := start;
      LocatorStart(start);
      while true
        invariant pindex in tree && IsAncestor(pindex, start) && Rooted(pindex)
        invariant |vHave| == |blocks| && forall i | 0 <= i < |blocks| :: vHave[i] == blocks[i].hash
        invariant Descending(blocks + [pindex], start)
        invariant Spaced(|blocks|, nStep, start.nHeight, pindex.nHeight)
        decreases pindex.nHeight
      {
        ghost var have := blocks;
        vHave := vHave + [pindex.hash];
        blocks := blocks + [pindex];
        if pindex.nHeight == 0 {
          LocatorDone(have, pindex, start, nStep);
          return;
        }
        var nHeight := if pindex.nHeight - nStep > 0 then pindex.nHeight - nStep else 0;
        LocatorStep(have, pindex, start, nStep, nHeight);
        AncestorInTree(tree, pindex, nHeight);
        if Contains(pindex) {
          FromIndex(vChain, pindex, nHeight);
          pindex := At(nHeight);
        } else {
          pindex := pindex.GetAncestor(nHeight, tree);
        }
        if |vHave| > 10 { nStep := nStep * 2; }
      }
    }
  }

  // Forks

  /** No block of the chain above r is an ancestor of b; without r, none at all. */
  ghost predicate NoneHigher(v: seq<BlockIndex?>, r: BlockIndex?, b: BlockIndex)
    requires Rooted(b)
  {
    forall h: nat | h <= b.nHeight && h < |v| && v[h] == Ancestor(b, h) :: r != null && h <= r.nHeight
  }

  lemma NoneHigherStart(v: seq<BlockIndex?>, b: BlockIndex, p: BlockIndex?)
    requires Rooted(b)
    requires b.nHeight <= |v| - 1 ==> p == b
    requires b.nHeight > |v| - 1 ==> p == if v == [] then null else Ancestor(b, |v| - 1)
    ensures NoneHigher(v, p, b)
  {
  }

  lemma NoneHigherStep(v: seq<BlockIndex?>, p: BlockIndex, b: BlockIndex)
    requires Rooted(b) && IsAncestor(p, b) && NoneHigher(v, p, b)
    requires p.nHeight < |v| ==> v[p.nHeight] != p
    ensures NoneHigher(v, p.pprev, b)
  {
    ParentIsAncestor(p, b);
  }

  lemma Trivial()
    ensures IsChain([])
  {
  }

  lemma RewriteStart(before: seq<BlockIndex?>, tip: BlockIndex)
    requires Rooted(tip) && |before| == tip.nHeight + 1
    ensures IsAncestor(tip, tip) && Rewritten(before, before, tip, tip.nHeight + 1)
  {
  }

  lemma RewriteShape(v: seq<BlockIndex?>, before: seq<BlockIndex?>, tip: BlockIndex, h: nat)
    requires Rooted(tip) && Rewritten(v, before, tip, h)
    ensures |v| == tip.nHeight + 1
  {
  }

  lemma RewrittenAll(v: seq<BlockIndex?>, before: seq<BlockIndex?>, tip: BlockIndex)
    requires Rooted(tip) && Rewritten(v, before, tip, 0)
    ensures Leads(v, tip)
  {
  }

  lemma LeadsChain(v: seq<BlockIndex?>, tip: BlockIndex)
    requires Rooted(tip) && Leads(v, tip)
    ensures IsChain(v)
  {
  }

  // Locators

  ghost predicate Descending(blocks: seq<BlockIndex>, start: BlockIndex)
    requires Rooted(start)
  {
    && blocks != [] && blocks[0] == start
    && (forall i | 0 <= i < |blocks| :: IsAncestor(blocks[i], start))
    && (forall i, j | 0 <= i < j < |blocks| :: blocks[i].nHeight > blocks[j].nHeight)
    && (forall i | 0 <= i < |blocks| :: blocks[i].nHeight == HeightAt(start.nHeight, i))
  }

  /** How far back entry i of a locator is: one by one for the first twelve, then at doubling distances. */
  function Back(i: nat): nat { if i <= 11 then i else 9 + Pow2(i - 10) }

  function HeightAt(top: nat, i: nat): nat { if Back(i) >= top then 0 else top - Back(i) }

  lemma BackNext(i: nat)
    ensures Back(i + 1) == Back(i) + Pow2(if i <= 10 then 0 else i - 10)
  {
    if i == 11 { assert Pow2(2) == 2 * Pow2(1) && Pow2(1) == 2 * Pow2(0); }
  }

  /** Strictly descending ancestors of a block, from it to the root, at the heights they should have, few of them. */
  ghost predicate LocatorOf(blocks: seq<BlockIndex>, start: BlockIndex) {
    && Rooted(start) && Descending(blocks, start)
    && blocks[|blocks| - 1].nHeight == 0
    && |blocks| <= 12 + CeilLog2(start.nHeight + 1)
  }

  /** After k blocks: the distance to go back next, and what has been covered so far. */
  ghost predicate Spaced(k: nat, step: nat, top: nat, height: nat) {
    && step == Pow2(if k <= 10 then 0 else k - 10)
    && height <= top && height == HeightAt(top, k)
    && (height > 0 ==> top - height >= step - 1)
    && (k > 10 ==> Pow2(k - 11) <= top)
  }

  lemma TipRooted(v: seq<BlockIndex?>)
    requires IsChain(v)
    ensures v != [] ==> v[|v| - 1] != null && Rooted(v[|v| - 1])
  {
  }

  lemma LocatorStart(start: BlockIndex)
    requires Rooted(start)
    ensures IsAncestor(start, start) && Descending([] + [start], start) && Spaced(0, 1, start.nHeight, start.nHeight)
  {
  }

  lemma LocatorStep(have: seq<BlockIndex>, p: BlockIndex, start: BlockIndex, step: nat, height: nat)
    requires Rooted(start) && Descending(have + [p], start) && Spaced(|have|, step, start.nHeight, p.nHeight) && p.nHeight > 0
    requires height == if p.nHeight - step > 0 then p.nHeight - step else 0
    ensures step >= 1 && height < p.nHeight && Rooted(p) && IsAncestor(Ancestor(p, height), start)
    ensures Descending(have + [p] + [Ancestor(p, height)], start)
    ensures Spaced(|have| + 1, if |have| + 1 > 10 then 2 * step else step, start.nHeight, height)
  {
    hide Spaced, HeightAt, Pow2, Descending;
    SpacedStep(|have|, step, start.nHeight, p.nHeight, height);
    LastDescends(have, p, start);
    AncestorOf(start, p.nHeight, height);
    DescendingStep(have + [p], p, Ancestor(p, height), start);
  }

  lemma LastDescends(have: seq<BlockIndex>, p: BlockIndex, start: BlockIndex)
    requires Rooted(start) && Descending(have + [p], start)
    ensures IsAncestor(p, start)
  {
    assert (have + [p])[|have|] == p;
  }

  lemma DescendingStep(all: seq<BlockIndex>, p: BlockIndex, next: BlockIndex, start: BlockIndex)
    requires Rooted(start) && Descending(all, start) && all[|all| - 1] == p
    requires IsAncestor(next, start) && next.nHeight < p.nHeight && next.nHeight == HeightAt(start.nHeight, |all|)
    ensures Descending(all + [next], start)
  {
    hide HeightAt;
    forall i | 0 <= i < |all| ensures all[i].nHeight >= p.nHeight {
      assert all[|all| - 1] == p;
    }
  }

  lemma SpacedStep(k: nat, step: nat, top: nat, at: nat, height: nat)
    requires Spaced(k, step, top, at) && at > 0 && height == if at - step > 0 then at - step else 0
    ensures step >= 1 && height < at && height == HeightAt(top, k + 1)
    ensures Spaced(k + 1, if k + 1 > 10 then 2 * step else step, top, height)
  {
    BackNext(k);
  }

  lemma LocatorDone(have: seq<BlockIndex>, p: BlockIndex, start: BlockIndex, step: nat)
    requires Rooted(start) && Descending(have + [p], start) && Spaced(|have|, step, start.nHeight, p.nHeight) && p.nHeight == 0
    ensures LocatorOf(have + [p], start)
    ensures |have + [p]| <= 12 + CeilLog2(start.nHeight + 1) && (have + [p])[0] == start
  {
    var k, l := |have|, CeilLog2(start.nHeight + 1);
    if k > 10 && k - 11 >= l {
      Pow2Monotone(l, k - 11);
      assert false;
    }
  }

  /** Looking an ancestor up by height in a chain that contains the block. */
  lemma FromIndex(v: seq<BlockIndex?>, p: BlockIndex, height: nat)
    requires IsChain(v) && Rooted(p) && height <= p.nHeight < |v| && v[p.nHeight] == p
    ensures v[height] == Ancestor(p, height)
  {
    AncestorOf(v[|v| - 1], p.nHeight, height);
  }
}
