/** The cuckoo cache as an object: element and epoch arrays and bit-packed garbage
    flags, updated in place. */
module CuckooCache {
  import opened Basics
  import opened Bits
  import opened CuckooTable

  // Bit-packed flags

  ghost function BitsIn(words: seq<bv8>): (b: seq<bool>)
    ensures |b| == 8 * |words|
  {
    seq(8 * |words|, i requires 0 <= i < 8 * |words| => BitOf(words[i / 8], i % 8))
  }

  /** A word that differs in one bit changes that bit. */
  lemma OneBit(words: seq<bv8>, s: nat, w: bv8, v: bool)
    requires s < 8 * |words|
    requires forall k | 0 <= k < 8 :: BitOf(w, k) == if k == s % 8 then v else BitOf(words[s / 8], k)
    ensures BitsIn(words[s / 8 := w]) == BitsIn(words)[s := v]
  {
    hide BitOf;
    var before, after := BitsIn(words), BitsIn(words[s / 8 := w]);
    forall i | 0 <= i < 8 * |words| ensures after[i] == before[s := v][i] {
      SamePosition(i, s);
    }
  }

  class BitPackedFlags {
    const mem: array<bv8>

    ghost function Bits(): (b: seq<bool>)
      reads mem
      ensures |b| == 8 * mem.Length
    {
      BitsIn(mem[..])
    }

    /** All bits are set at first. */
    constructor (size: nat)
      ensures fresh(mem) && |Bits()| >= size && forall i | 0 <= i < |Bits()| :: Bits()[i]
    {
      mem := new bv8[(size + 7) / 8](_ => 0xFF);
      new;
      forall i | 0 <= i < |Bits()| ensures Bits()[i] {
        assert mem[i / 8] == 0xFF;
        FullByte(i % 8);
      }
    }

    method BitSet(s: nat)
      requires s < |Bits()|
      modifies mem
      ensures Bits() == old(Bits())[s := true]
    {
      hide BitOf, SetBit;
      ghost var words := mem[..];
      mem[s / 8] := SetBit(mem[s / 8], s % 8);
      OneBit(words, s, mem[s / 8], true);
      assert mem[..] == words[s / 8 := mem[s / 8]];
    }

    method BitUnset(s: nat)
      requires s < |Bits()|
      modifies mem
      ensures Bits() == old(Bits())[s := false]
    {
      hide BitOf, ClearBit;
      ghost var words := mem[..];
      mem[s / 8] := ClearBit(mem[s / 8], s % 8);
      OneBit(words, s, mem[s / 8], false);
      assert mem[..] == words[s / 8 := mem[s / 8]];
    }

    method BitIsSet(s: nat) returns (b: bool)
      requires s < |Bits()|
      ensures b == Bits()[s]
    {
      b := Mask(s % 8) & mem[s / 8] != 0;
      AndCommutes(Mask(s % 8), mem[s / 8]);
    }
  }

  // The cache

  const TWO_32: nat := 0x1_0000_0000

  /** The eight positions of an element: each 32-bit hash scaled to the table size. */
  function Locate<T(!new)>(hash: (T, nat) -> nat, size: nat, e: T): (ls: seq<nat>)
  {
    seq(8, k requires 0 <= k < 8 => hash(e, k) * size / TWO_32)
  }

  lemma ScaledBelow(h: nat, size: nat)
    requires h < TWO_32 && size > 0
    ensures h * size / TWO_32 < size
  {
    assert h * size < TWO_32 * size;
  }

  /** Position k is where the k-th hash falls when the 32-bit numbers are cut into as many equal parts as there are
      positions. */
  lemma LocateExactly<T(!new)>(hash: (T, nat) -> nat, size: nat, e: T, k: nat, p: nat)
    requires k < 8
    ensures |Locate(hash, size, e)| == 8
    ensures Locate(hash, size, e)[k] == p <==> p * TWO_32 <= hash(e, k) * size < (p + 1) * TWO_32
  {
    var h := hash(e, k) * size;
    assert h == (h / TWO_32) * TWO_32 + h % TWO_32;
  }

  class Cache<T(==,!new)> {
    const hash: (T, nat) -> nat
    const size: nat
    const blank: T
    const depthLimit: nat
    const epochSize: nat
    const table: array<T>
    const collectionFlags: BitPackedFlags
    const epochFlags: array<bool>
    var epochHeuristicCounter: nat

    ghost function Locs(): T -> seq<nat> {
      e => Locate(hash, size, e)
    }

    ghost predicate Shape()
      reads collectionFlags.mem
    {
      && table.Length == size && epochFlags.Length == size && |collectionFlags.Bits()| >= size >= 2 && epochSize >= 1
      && (forall e, k :: hash(e, k) < TWO_32)
      && table as object != epochFlags && table as object != collectionFlags.mem
      && epochFlags as object != collectionFlags.mem
    }

    ghost function Model(): Table<T>
      requires Shape()
      reads this, table, epochFlags, collectionFlags.mem
    {
      Table(table[..], collectionFlags.Bits()[..size], epochFlags[..], epochHeuristicCounter, epochSize)
    }

    ghost predicate Valid()
      reads this, table, epochFlags, collectionFlags.mem
    {
      Shape() && CuckooTable.Valid(Locs(), blank, Model())
    }

    lemma LocsInRange()
      requires Shape()
      ensures LocsOk(Locs(), size)
    {
      forall e ensures |Locs()(e)| == 8 && forall k | 0 <= k < 8 :: Locs()(e)[k] < size {
        forall k | 0 <= k < 8 ensures Locs()(e)[k] < size { ScaledBelow(hash(e, k), size); }
      }
    }

    /** depth is the whole part of the size's binary logarithm, at least 1. */
    constructor Setup(h: (T, nat) -> nat, newSize: nat, blank_: T, depth: nat)
      requires (forall e, k :: h(e, k) < TWO_32) && newSize < TWO_32 && depth >= 1
      ensures Valid() && size == (if newSize > 2 then newSize else 2)
      ensures Model() == CuckooTable.Setup(size, epochSize, blank) && blank == blank_
    {
      hash, blank, depthLimit := h, blank_, depth;
      var n := if newSize > 2 then newSize else 2;
      size := n;
      table := new T[n](_ => blank_);
      collectionFlags := new BitPackedFlags(n);
      epochFlags := new bool[n](_ => false);
      var e := Max(1, (45 * n) % TWO_32 / 100);
      epochSize := e;
      epochHeuristicCounter := e;
      new;
      LocsInRange();
      SetupValid(Locs(), blank, size, epochSize);
      assert Model() == CuckooTable.Setup(size, epochSize, blank);
    }

    /** The scan of the epoch check. */
    method CountUnused() returns (unused: nat)
      requires Shape()
      ensures unused == CountRecent(Model(), size)
    {
      hide BitPackedFlags.Bits;
      unused := 0;
      for i := 0 to size
        invariant unused == CountRecent(Model(), i)
      {
        var g := collectionFlags.BitIsSet(i);
        if epochFlags[i] && !g { unused := unused + 1; }
      }
    }

    method AgeEntries()
      requires Shape()
      modifies this, epochFlags, collectionFlags.mem
      ensures Shape() && Model() == Age(old(Model()))
    {
      hide BitPackedFlags.Bits;
      ghost var t := Model();
      for i := 0 to size
        invariant table[..] == t.slots && |collectionFlags.Bits()| >= size && epochHeuristicCounter == t.counter
        invariant forall j | 0 <= j < size :: epochFlags[j] == if j < i then false else t.recent[j]
        invariant forall j | 0 <= j < size :: collectionFlags.Bits()[j] == (t.garbage[j] || (j < i && !t.recent[j]))
      {
        if epochFlags[i] { epochFlags[i] := false; } else { collectionFlags.BitSet(i); }
      }
      epochHeuristicCounter := epochSize;
      assert epochFlags[..] == Age(t).recent;
      assert collectionFlags.Bits()[..size] == Age(t).garbage;
    }

    method EpochCheck()
      requires Shape()
      modifies this, epochFlags, collectionFlags.mem
      ensures Shape() && Model() == CuckooTable.EpochCheck(old(Model()))
    {
      hide BitPackedFlags.Bits;
      if epochHeuristicCounter != 0 {
        epochHeuristicCounter := epochHeuristicCounter - 1;
        return;
      }
      var unused := CountUnused();
      if unused >= epochSize {
        AgeEntries();
      } else {
        epochHeuristicCounter := Max(1, Max(epochSize / 16, epochSize - unused));
      }
    }

    method PleaseKeep(loc: nat, epoch: bool)
      requires Shape() && loc < size
      modifies epochFlags, collectionFlags.mem
      ensures Shape()
      ensures var t := old(Model()); Model() == t.(garbage := t.garbage[loc := false], recent := t.recent[loc := epoch])
    {
      hide BitPackedFlags.Bits;
      collectionFlags.BitUnset(loc);
      epochFlags[loc] := epoch;
      ghost var t := old(Model());
      assert collectionFlags.Bits()[..size] == t.garbage[loc := false];
    }

    method PutElement(loc: nat, e: T, epoch: bool)
      requires Shape() && loc < size
      modifies table, epochFlags, collectionFlags.mem
      ensures Shape() && Model() == Put(old(Model()), loc, e, epoch)
    {
      hide BitPackedFlags.Bits;
      table[loc] := e;
      PleaseKeep(loc, epoch);
    }

    method SwapElement(loc: nat, e: T, epoch: bool) returns (evicted: T, oldEpoch: bool)
      requires Shape() && loc < size
      modifies table, epochFlags
      ensures Shape() && Model() == Swap(old(Model()), loc, e, epoch)
      ensures evicted == old(Model()).slots[loc] && oldEpoch == old(Model()).recent[loc]
    {
      hide BitPackedFlags.Bits;
      evicted, oldEpoch := table[loc], epochFlags[loc];
      table[loc] := e;
      epochFlags[loc] := epoch;
    }

    /** The displacement loop of insert; it reports the element that found no place. */
    method DisplaceLoop(eIn: T) returns (dropped: Option<T>)
      requires Shape()
      modifies table, epochFlags, collectionFlags.mem
      ensures Shape() && LocsOk(Locs(), size)
      ensures (Model(), dropped) == Displace(Locs(), old(Model()), eIn, -1, true, depthLimit)
    {
      hide BitPackedFlags.Bits, Locate, LocsOk, FirstGarbage, IndexOf, Put, Swap;
      LocsInRange();
      ghost var locs, r := Locs(), Displace(Locs(), Model(), eIn, -1, true, depthLimit);
      var e, lastEpoch := eIn, true;
      var lastLoc: int := -1;
      var ls := Locate(hash, size, e);
      var depth := 0;
      while depth < depthLimit
        invariant 0 <= depth <= depthLimit && Shape() && ls == Locate(hash, size, e)
        invariant Displace(locs, Model(), e, lastLoc, lastEpoch, depthLimit - depth) == r
      {
        LocsAt(locs, size, e);
        var k := FindGarbage(ls);
        if k < 8 {
          PutElement(ls[k], e, lastEpoch);
          return None;
        }
        lastLoc := ls[(1 + IndexOf(ls, lastLoc, 0)) % 8];
        e, lastEpoch := SwapElement(lastLoc, e, lastEpoch);
        ls := Locate(hash, size, e);
        depth := depth + 1;
      }
      dropped := Some(e);
    }

    method FindGarbage(ls: seq<nat>) returns (k: nat)
      requires Shape() && |ls| == 8 && forall j | 0 <= j < 8 :: ls[j] < size
      ensures k == FirstGarbage(Model(), ls, 0)
    {
      hide BitPackedFlags.Bits;
      k := 0;
      while k < 8
        invariant k <= 8 && FirstGarbage(Model(), ls, k) == FirstGarbage(Model(), ls, 0)
      {
        var g := collectionFlags.BitIsSet(ls[k]);
        if g { return; }
        k := k + 1;
      }
    }

    method FindElement(ls: seq<nat>, e: T) returns (k: nat)
      requires Shape() && |ls| == 8 && forall j | 0 <= j < 8 :: ls[j] < size
      ensures k == FirstHolding(Model(), ls, e, 0)
    {
      k := 0;
      while k < 8
        invariant k <= 8 && FirstHolding(Model(), ls, e, k) == FirstHolding(Model(), ls, e, 0)
      {
        if table[ls[k]] == e { return; }
        k := k + 1;
      }
    }

    method Insert(e: T) returns (dropped: Option<T>)
      requires Valid()
      modifies this, table, epochFlags, collectionFlags.mem
      ensures Valid() && LocsOk(Locs(), size)
      ensures (Model(), dropped) == CuckooTable.Insert(Locs(), old(Model()), e, depthLimit)
      ensures Live(Model(), blank) + Dropped(dropped, blank) == Surviving(old(Model()), blank) + Only(e, blank)
      ensures e != blank && dropped.None? ==> e in table[..]
    {
      hide BitPackedFlags.Bits, Locate, Placed, RecentSet, Live, CuckooTable.EpochCheck, Surviving, CuckooTable.Displace;
      LocsInRange();
      InsertKeeps(Locs(), blank, Model(), e, depthLimit);
      ghost var u := CuckooTable.Insert(Locs(), Model(), e, depthLimit);
      if e != blank && u.1.None? { LiveStored(u.0, blank, e); }
      EpochCheck();
      var ls := Locate(hash, size, e);
      LocsAt(Locs(), size, e);
      var k := FindElement(ls, e);
      if k < 8 {
        PleaseKeep(ls[k], true);
        return None;
      }
      dropped := DisplaceLoop(e);
    }

    method Contains(e: T, erase: bool) returns (found: bool)
      requires Valid()
      modifies collectionFlags.mem
      ensures Valid() && LocsOk(Locs(), size)
      ensures found == CuckooTable.Contains(Locs(), old(Model()), e)
      ensures Model() == if erase then Erase(Locs(), old(Model()), e) else old(Model())
      ensures e != blank ==> (found <==> e in old(table[..]))
    {
      hide BitPackedFlags.Bits, Locate, Placed, RecentSet, Live;
      ghost var t := Model();
      LocsInRange();
      EraseKeeps(Locs(), blank, t, e);
      if e != blank { ContainsExactly(Locs(), blank, t, e); }
      var ls := Locate(hash, size, e);
      LocsAt(Locs(), size, e);
      var k := FindElement(ls, e);
      found := k < 8;
      if found && erase {
        collectionFlags.BitSet(ls[k]);
        assert collectionFlags.Bits()[..size] == t.garbage[ls[k] := true];
      }
    }
  }
}
