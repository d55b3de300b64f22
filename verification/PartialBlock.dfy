/** A block being rebuilt, as an object. */
module PartialBlock {
  import opened Basics
  import opened BlockRebuild
  import opened CompactBlock
  import opened Consensus
  import opened PartialMerkle

  datatype ReadStatus = StatusOk | StatusInvalid | StatusFailed | StatusCheckBlockFailed

  /** What checking the rebuilt block finds. */
  datatype Check = CheckPassed | CheckFailed(corruptionPossible: bool)

  /** The number of transactions fits the 16-bit indexes of the code. */
  ghost predicate SmallEnough(c: Compact) {
    |c.shortids| + |c.prefilled| <= MAX_INDEX
  }

  class PartiallyDownloadedBlock {
    var headerIsNull: bool
    var txnAvailable: Slots
    var prefilledCount: nat
    var mempoolCount: int

    constructor ()
      ensures headerIsNull && txnAvailable == [] && prefilledCount == 0 && mempoolCount == 0
    {
      headerIsNull, txnAvailable, prefilledCount, mempoolCount := true, [], 0, 0;
    }

    /** Takes in a compact block and matches it with the transactions at hand. */
    method InitData(c: Compact, pool: seq<Known>, extra: seq<Known>, shortid: nat -> nat, crowded: set<nat>)
      returns (status: ReadStatus)
      requires headerIsNull && txnAvailable == [] && mempoolCount == 0 && SmallEnough(c)
      modifies this
      ensures var r := Init(shortid, c, pool, extra, crowded);
        && (status.StatusOk? <==> r.Ready?) && (status.StatusInvalid? <==> r.Invalid?) && (status.StatusFailed? <==> r.Failure?)
        && (r.Ready? ==> !headerIsNull && txnAvailable == r.slots && mempoolCount == r.count && prefilledCount == |c.prefilled|)
    {
      hide Placed, Free, SlotMap, Offers;
      if c.headerIsNull || (|c.shortids| == 0 && |c.prefilled| == 0) { return StatusInvalid; }
      if |c.shortids| + |c.prefilled| > MAX_BLOCK_WEIGHT / MIN_SERIALIZABLE_TRANSACTION_WEIGHT { return StatusInvalid; }
      headerIsNull := false;
      var placed := PlacePrefilled(c);
      if placed.None? { return StatusInvalid; }
      txnAvailable := placed.value;
      prefilledCount := |c.prefilled|;
      PlacedStart(c.prefilled, |c.shortids|);
      ghost var base := txnAvailable;
      var room, m := MapShortIds(c.shortids, txnAvailable, crowded);
      if !room { return StatusFailed; }
      if |m| != |c.shortids| { return StatusFailed; }
      SlotMapOk(c.shortids, base, |c.shortids|);
      var p := MatchAll(shortid, m, Progress(txnAvailable, Nothing(|txnAvailable|), 0), pool, false);
      var q := MatchAll(shortid, m, p, extra, true);
      txnAvailable, mempoolCount := q.slots, q.count;
      return StatusOk;
    }

    method PlacePrefilled(c: Compact) returns (r: Option<Slots>)
      ensures r == Placed(NoSlots(|c.shortids| + |c.prefilled|), -1, 0, c.prefilled, |c.shortids|)
    {
      ghost var all := Placed(NoSlots(|c.shortids| + |c.prefilled|), -1, 0, c.prefilled, |c.shortids|);
      var slots := NoSlots(|c.shortids| + |c.prefilled|);
      var last, i := -1, 0;
      while i < |c.prefilled|
        invariant i <= |c.prefilled| && -1 <= last && |slots| == |c.shortids| + |c.prefilled|
        invariant Placed(slots, last, i, c.prefilled, |c.shortids|) == all
      {
        if c.prefilled[i].tx.isNull { return None; }
        last := last + c.prefilled[i].index + 1;
        if last > MAX_INDEX { return None; }
        if last > |c.shortids| + i { return None; }
        slots := slots[last := Some(c.prefilled[i].tx)];
        i := i + 1;
      }
      return Some(slots);
    }

    /** Assigns the i-th short id the i-th free slot, found by moving an offset over the others. */
    method MapShortIds(ids: seq<nat>, slots: Slots, crowded: set<nat>) returns (room: bool, m: map<nat, nat>)
      requires |AllFree(slots)| == |ids|
      ensures room == !(exists i | i in crowded :: i < |ids|)
      ensures room ==> m == SlotMap(ids, AllFree(slots), |ids|)
    {
      hide Free, Empties;
      m := map[];
      var offset, i := 0, 0;
      FreeNone(slots);
      while i < |ids|
        invariant i <= |ids| && 0 <= offset && i + offset <= |slots|
        invariant |Free(slots, 0, i + offset)| == i
        invariant m == SlotMap(ids, AllFree(slots), i)
        invariant forall k | 0 <= k < i :: k !in crowded
      {
        FreeLeft(slots, i + offset);
        while slots[i + offset].Some?
          invariant 0 <= offset && i + offset < |slots|
          invariant |Free(slots, 0, i + offset)| == i
          decreases |slots| - offset
        {
          FreeSkips(slots, i + offset);
          offset := offset + 1;
          FreeLeft(slots, i + offset);
        }
        FreeHits(slots, i + offset);
        m := m[ids[i] := i + offset];
        if i in crowded { return false, m; }
        i := i + 1;
      }
      room := true;
    }

    method MatchAll(shortid: nat -> nat, m: map<nat, nat>, start: Progress, ks: seq<Known>, extra: bool) returns (p: Progress)
      requires MapOk(m, |start.slots|) && |start.have| == |start.slots|
      ensures |p.slots| == |p.have| == |start.slots|
      ensures p == Offers(shortid, m, start, ks, extra)
    {
      p := start;
      var i := 0;
      assert ks[0..] == ks;
      while i < |ks|
        invariant i <= |ks| && |p.slots| == |p.have| == |start.slots|
        invariant Offers(shortid, m, p, ks[i..], extra) == Offers(shortid, m, start, ks, extra)
      {
        assert ks[i..][0] == ks[i] && ks[i..][1..] == ks[i + 1..];
        var id := shortid(ks[i].hash);
        ghost var before := p;
        if id in m {
          var at := m[id];
          if !p.have[at] {
            p := Progress(p.slots[at := Some(ks[i].tx)], p.have[at := true], p.count + 1);
          } else if p.slots[at].Some? && (!extra || p.slots[at].value.witnessHash != ks[i].tx.witnessHash) {
            p := p.(slots := p.slots[at := None], count := p.count - 1);
          }
        }
        assert p == Offer(shortid, m, before, ks[i], extra);
        if p.count == |m| { return; }
        i := i + 1;
      }
    }

    /** Completes the block with the transactions asked for; too few or too many are refused. Only
        if there were too few may it be called again, with every slot before the one they ran out at
        moved away. */
    method FillBlock(missing: seq<Tx>, check: Check) returns (status: ReadStatus, vtx: seq<Tx>)
      requires !headerIsNull
      modifies this`headerIsNull, this`txnAvailable
      ensures FillFrom(old(txnAvailable), 0, missing, 0).Some? <==> |missing| == |AllFree(old(txnAvailable))|
      ensures |missing| != |AllFree(old(txnAvailable))| ==> status == StatusInvalid
      ensures |missing| >= |AllFree(old(txnAvailable))| ==> headerIsNull && txnAvailable == []
      ensures |missing| < |AllFree(old(txnAvailable))| ==>
        !headerIsNull && txnAvailable == MovedAway(old(txnAvailable), AllFree(old(txnAvailable))[|missing|])
      ensures FillFrom(old(txnAvailable), 0, missing, 0).Some? ==> vtx == FillFrom(old(txnAvailable), 0, missing, 0).value
      ensures FillFrom(old(txnAvailable), 0, missing, 0).Some? ==>
        status ==
          match check
          case CheckPassed => StatusOk
          case CheckFailed(corrupt) => if corrupt then StatusFailed else StatusCheckBlockFailed
    {
      ghost var slots := txnAvailable;
      vtx := [];
      var offset, i := 0, 0;
      PrependNothing(FillFrom(slots, 0, missing, 0));
      FillExactly(slots, 0, missing, 0);
      while i < |txnAvailable|
        invariant txnAvailable == MovedAway(slots, i) && !headerIsNull
        invariant 0 <= i <= |slots| && 0 <= offset <= |missing|
        invariant offset == |Free(slots, 0, i)|
        invariant FillFrom(slots, 0, missing, 0) == Prepended(vtx, FillFrom(slots, i, missing, offset))
      {
        FreeNext(slots, i);
        if txnAvailable[i].None? {
          if |missing| <= offset { return StatusInvalid, vtx; }
          PrependMore(vtx, missing[offset], FillFrom(slots, i + 1, missing, offset + 1));
          vtx := vtx + [missing[offset]];
          offset := offset + 1;
        } else {
          PrependMore(vtx, slots[i].value, FillFrom(slots, i + 1, missing, offset));
          vtx := vtx + [txnAvailable[i].value];
          txnAvailable := txnAvailable[i := None];
        }
        i := i + 1;
      }
      headerIsNull, txnAvailable := true, [];
      if |missing| != offset { return StatusInvalid, vtx; }
      assert vtx + [] == vtx;
      match check {
        case CheckPassed => status := StatusOk;
        case CheckFailed(corrupt) => status := if corrupt then StatusFailed else StatusCheckBlockFailed;
      }
    }
  }

  /** The slots once those before n were moved into the block. */
  function MovedAway(slots: Slots, n: nat): (r: Slots)
    ensures |r| == |slots|
  {
    seq(|slots|, k requires 0 <= k < |slots| => if k < n then None else slots[k])
  }

  /** The empty slots up to and including slot i, and where slot i is among all of them. */
  lemma FreeNext(slots: Slots, i: nat)
    requires i < |slots|
    ensures Free(slots, 0, i + 1) == Free(slots, 0, i) + (if slots[i].None? then [i] else [])
    ensures |Free(slots, 0, i + 1)| <= |AllFree(slots)|
    ensures slots[i].None? ==> AllFree(slots)[|Free(slots, 0, i)|] == i
  {
    MatchedSplit(Empties(slots), 0, i, i + 1);
    MatchedOne(Empties(slots), i);
    MatchedSplit(Empties(slots), 0, i + 1, |slots|);
  }

  function Prepended(front: seq<Tx>, rest: Option<seq<Tx>>): Option<seq<Tx>> {
    match rest
    case None => None
    case Some(s) => Some(front + s)
  }

  lemma PrependNothing(rest: Option<seq<Tx>>)
    ensures Prepended([], rest) == rest
  {
    if rest.Some? { assert [] + rest.value == rest.value; }
  }

  lemma PrependMore(front: seq<Tx>, x: Tx, rest: Option<seq<Tx>>)
    ensures Prepended(front, Cons(x, rest)) == Prepended(front + [x], rest)
  {
    if rest.Some? { assert front + ([x] + rest.value) == (front + [x]) + rest.value; }
  }

  // Where the free slots are

  lemma FreeNone(slots: Slots)
    ensures Free(slots, 0, 0) == []
  {
  }

  /** While free slots are left, the end is not reached. */
  lemma FreeLeft(slots: Slots, k: nat)
    requires k <= |slots|
    ensures |Free(slots, 0, k)| < |AllFree(slots)| ==> k < |slots|
  {
  }

  lemma FreeSkips(slots: Slots, k: nat)
    requires k < |slots| && slots[k].Some?
    ensures Free(slots, 0, k + 1) == Free(slots, 0, k)
  {
    MatchedSplit(Empties(slots), 0, k, k + 1);
    MatchedOne(Empties(slots), k);
  }

  lemma FreeHits(slots: Slots, k: nat)
    requires k < |slots| && slots[k].None?
    ensures |Free(slots, 0, k + 1)| == |Free(slots, 0, k)| + 1
    ensures |Free(slots, 0, k)| < |AllFree(slots)| && AllFree(slots)[|Free(slots, 0, k)|] == k
  {
    MatchedSplit(Empties(slots), 0, k, k + 1);
    MatchedOne(Empties(slots), k);
    MatchedSplit(Empties(slots), 0, k + 1, |slots|);
  }
}
