/** Compact blocks (BIP 152): a block announced by short transaction ids and a few whole
    transactions, and rebuilt from transactions already known. */
module CompactBlock {
  import opened Basics
  import opened PartialMerkle

  const MAX_INDEX := 0xffff

  datatype Tx = Tx(hash: nat, witnessHash: nat, isNull: bool)

  // Differential coding of indexes

  function Beyond(last: int, index: int): int { index - (last + 1) }

  /** Each index as its distance beyond the one before. */
  function Differences(indexes: seq<nat>): (r: seq<int>)
    ensures |r| == |indexes|
  {
    seq(|indexes|, i requires 0 <= i < |indexes| => if i == 0 then indexes[0] else Beyond(indexes[i - 1], indexes[i]))
  }

  /** Reads differences back, offset being a 16-bit number; fails when an index overflows it. */
  function Indexes(diffs: seq<nat>, offset: nat): Option<seq<nat>>
    decreases |diffs|
  {
    if diffs == [] then Some([])
    else if diffs[0] > MAX_INDEX || diffs[0] + offset > MAX_INDEX then None
    else
      var index := diffs[0] + offset;
      match Indexes(diffs[1..], (index + 1) % (MAX_INDEX + 1))
      case None => None
      case Some(rest) => Some([index] + rest)
  }

  /** The first index not covered, were indexes unbounded. */
  function Span(diffs: seq<nat>): nat {
    if diffs == [] then 0 else diffs[0] + 1 + Span(diffs[1..])
  }

  /** The indexes, were they unbounded. */
  function Unbounded(diffs: seq<nat>, offset: nat): (r: seq<nat>)
    ensures |r| == |diffs|
    decreases |diffs|
  {
    if diffs == [] then [] else [diffs[0] + offset] + Unbounded(diffs[1..], diffs[0] + offset + 1)
  }

  lemma {:induction false} UnboundedRises(diffs: seq<nat>, offset: nat)
    ensures Ascending(Unbounded(diffs, offset))
    ensures forall i | 0 <= i < |diffs| :: offset <= Unbounded(diffs, offset)[i] < offset + Span(diffs)
    decreases |diffs|
  {
    if diffs != [] {
      UnboundedRises(diffs[1..], diffs[0] + offset + 1);
    }
  }

  /** Within 16 bits reading is exact. */
  lemma {:induction false} IndexesExact(diffs: seq<nat>, offset: nat)
    requires offset + Span(diffs) <= MAX_INDEX + 1 && offset <= MAX_INDEX
    ensures Indexes(diffs, offset) == Some(Unbounded(diffs, offset))
    decreases |diffs|
  {
    if diffs != [] {
      var next := diffs[0] + offset + 1;
      if next <= MAX_INDEX {
        IndexesExact(diffs[1..], next);
      } else {
        assert diffs[1..] == [];
      }
    }
  }

  /** Read back, the indexes rise exactly when the differences stay within 16 bits. */
  lemma IndexesRise(diffs: seq<nat>)
    ensures Indexes(diffs, 0).Some? && Ascending(Indexes(diffs, 0).value) <==> Span(diffs) <= MAX_INDEX + 1
  {
    if Span(diffs) <= MAX_INDEX + 1 {
      IndexesExact(diffs, 0);
      UnboundedRises(diffs, 0);
    } else {
      IndexesWrap(diffs, 0);
    }
  }

  /** Beyond 16 bits reading fails, or falls back below an index already read. */
  lemma {:induction false} IndexesWrap(diffs: seq<nat>, offset: nat)
    requires offset + Span(diffs) > MAX_INDEX + 1 && offset <= MAX_INDEX
    ensures Indexes(diffs, offset).None? || !Ascending(Indexes(diffs, offset).value)
    decreases |diffs|
  {
    if diffs[0] + offset <= MAX_INDEX && Indexes(diffs, offset).Some? {
      var index := diffs[0] + offset;
      var rest := Indexes(diffs[1..], (index + 1) % (MAX_INDEX + 1)).value;
      var all := [index] + rest;
      if index < MAX_INDEX {
        IndexesWrap(diffs[1..], index + 1);
        TailRises(all);
      } else {
        assert diffs[1..] != [];
        IndexesBounded(diffs[1..], 0);
        assert all[1] <= all[0];
      }
    }
  }

  lemma TailRises(s: seq<nat>)
    requires s != [] && !Ascending(s[1..])
    ensures !Ascending(s)
  {
    var i, j :| 0 <= i < j < |s[1..]| && s[1..][i] >= s[1..][j];
    assert s[i + 1] >= s[j + 1];
  }

  lemma {:induction false} IndexesBounded(diffs: seq<nat>, offset: nat)
    requires Indexes(diffs, offset).Some?
    ensures |Indexes(diffs, offset).value| == |diffs|
    ensures forall i | 0 <= i < |diffs| :: Indexes(diffs, offset).value[i] <= MAX_INDEX
    decreases |diffs|
  {
    if diffs != [] { IndexesBounded(diffs[1..], (diffs[0] + offset + 1) % (MAX_INDEX + 1)); }
  }

  /** The first n differences end exactly at the end of 16 bits, and the rest is read from zero again. */
  predicate WrapsAt(diffs: seq<nat>, offset: nat, n: nat) {
    0 < n < |diffs| && offset + Span(diffs[..n]) == MAX_INDEX + 1 && Indexes(diffs[n..], 0).Some?
  }

  lemma {:induction false} SpanSplit(diffs: seq<nat>, n: nat)
    requires n <= |diffs|
    ensures Span(diffs) == Span(diffs[..n]) + Span(diffs[n..])
  {
    if n > 0 {
      SpanSplit(diffs[1..], n - 1);
      assert diffs[..n][1..] == diffs[1..][..n - 1] && diffs[1..][n - 1..] == diffs[n..];
    }
  }

  /** One difference read, without the remainder. */
  lemma IndexesStep(diffs: seq<nat>, offset: nat)
    requires diffs != [] && diffs[0] + offset <= MAX_INDEX
    ensures var rest := Indexes(diffs[1..], if diffs[0] + offset == MAX_INDEX then 0 else diffs[0] + offset + 1);
      Indexes(diffs, offset) == if rest.None? then None else Some([diffs[0] + offset] + rest.value)
  {
  }

  /** Reading on after the wrap: exact up to it, then the rest from zero. */
  lemma {:induction false} WrapSplits(diffs: seq<nat>, offset: nat, n: nat)
    requires WrapsAt(diffs, offset, n) && offset <= MAX_INDEX
    ensures Indexes(diffs, offset) == Some(Unbounded(diffs[..n], offset) + Indexes(diffs[n..], 0).value)
    decreases n
  {
    hide Indexes;
    var d, rest := diffs[..n], Indexes(diffs[n..], 0).value;
    assert d[0] == diffs[0] && d[1..] == diffs[1..][..n - 1] && diffs[1..][n - 1..] == diffs[n..];
    IndexesStep(diffs, offset);
    if n == 1 {
      assert diffs[n..] == diffs[1..];
      assert Unbounded(d, offset) == [diffs[0] + offset];
    } else {
      var next := diffs[0] + offset + 1;
      assert Span(d[1..]) > 0;
      WrapSplits(diffs[1..], next, n - 1);
      assert [diffs[0] + offset] + (Unbounded(d[1..], next) + rest) == Unbounded(d, offset) + rest;
    }
  }

  lemma {:induction false} WrapFound(diffs: seq<nat>, offset: nat) returns (n: nat)
    requires offset <= MAX_INDEX && offset + Span(diffs) > MAX_INDEX + 1 && Indexes(diffs, offset).Some?
    ensures WrapsAt(diffs, offset, n)
    decreases |diffs|
  {
    var next := diffs[0] + offset + 1;
    if next == MAX_INDEX + 1 {
      n := 1;
      assert diffs[..1] == [diffs[0]];
    } else {
      var m := WrapFound(diffs[1..], next);
      n := m + 1;
      assert diffs[..n][1..] == diffs[1..][..m] && diffs[n..] == diffs[1..][m..];
    }
  }

  /** Beyond 16 bits differences are accepted, with indexes that fall back, exactly when
      some of them end at the last index and the rest is accepted from zero. */
  lemma IndexesFallBack(diffs: seq<nat>)
    ensures Indexes(diffs, 0).Some? && !Ascending(Indexes(diffs, 0).value) <==> exists n :: WrapsAt(diffs, 0, n)
    ensures Indexes(diffs, 0).Some? <==> Span(diffs) <= MAX_INDEX + 1 || exists n :: WrapsAt(diffs, 0, n)
  {
    IndexesRise(diffs);
    if Span(diffs) > MAX_INDEX + 1 && Indexes(diffs, 0).Some? {
      var n := WrapFound(diffs, 0);
    }
    forall n | WrapsAt(diffs, 0, n) ensures Indexes(diffs, 0).Some? && Span(diffs) > MAX_INDEX + 1 {
      WrapSplits(diffs, 0, n);
      SpanSplit(diffs, n);
    }
  }

  /** Two differences that are accepted and read as falling indexes. */
  lemma FallBackExample()
    ensures Indexes([MAX_INDEX, 0], 0) == Some([MAX_INDEX, 0])
  {
    var two, one: seq<nat> := [MAX_INDEX, 0], [0];
    assert two[1..] == one && one[1..] == [];
    IndexesStep(two, 0);
    IndexesStep(one, 0);
    assert Indexes(one, 0).value == [0];
    assert Indexes(two, 0).value == [MAX_INDEX, 0];
  }

  ghost predicate Naturals(s: seq<int>) { forall i | 0 <= i < |s| :: s[i] >= 0 }

  function AsNaturals(s: seq<int>): (r: seq<nat>)
    requires Naturals(s)
    ensures r == s
  {
    seq(|s|, i requires 0 <= i < |s| => s[i])
  }

  /** Writing rising 16-bit indexes and reading them gives them back. */
  lemma IndexesRoundTrip(indexes: seq<nat>)
    requires Ascending(indexes) && forall i | 0 <= i < |indexes| :: indexes[i] <= MAX_INDEX
    ensures Naturals(Differences(indexes)) && Indexes(AsNaturals(Differences(indexes)), 0) == Some(indexes)
  {
    RisingNaturals(indexes);
    var d := AsNaturals(Differences(indexes));
    assert indexes[0..] == indexes && d[0..] == d;
    UnboundedBack(indexes, d, 0, 0);
    IndexesExact(d, 0);
  }

  lemma RisingNaturals(indexes: seq<nat>)
    requires Ascending(indexes)
    ensures Naturals(Differences(indexes))
  {
    forall i | 0 <= i < |indexes| ensures Differences(indexes)[i] >= 0 {
      if i > 0 { assert indexes[i - 1] < indexes[i]; }
    }
  }

  lemma DifferenceAt(indexes: seq<nat>, d: seq<nat>, i: nat)
    requires d == Differences(indexes) && i < |indexes|
    ensures d[i] + (if i == 0 then 0 else indexes[i - 1] + 1) == indexes[i]
  {
    assert d[i] == Differences(indexes)[i];
  }

  lemma {:induction false} UnboundedBack(indexes: seq<nat>, d: seq<nat>, i: nat, offset: nat)
    requires |d| == |indexes| && i <= |indexes|
    requires d == Differences(indexes)
    requires offset == if i == 0 then 0 else indexes[i - 1] + 1
    ensures Unbounded(d[i..], offset) == indexes[i..]
    ensures offset + Span(d[i..]) == if indexes == [] then 0 else indexes[|indexes| - 1] + 1
    decreases |indexes| - i
  {
    hide Differences;
    if i < |indexes| {
      var rest := d[i..];
      DifferenceAt(indexes, d, i);
      assert rest[0] == d[i];
      assert rest[1..] == d[i + 1..];
      UnboundedBack(indexes, d, i + 1, indexes[i] + 1);
      assert indexes[i..] == [indexes[i]] + indexes[i + 1..];
    }
  }

  lemma {:induction false} TooLarge(diffs: seq<nat>, offset: nat, j: nat)
    requires j < |diffs| && diffs[j] > MAX_INDEX
    ensures Indexes(diffs, offset).None?
    decreases |diffs|
  {
    if j > 0 && diffs[0] + offset <= MAX_INDEX {
      TooLarge(diffs[1..], (diffs[0] + offset + 1) % (MAX_INDEX + 1), j - 1);
    }
  }

  function After(done: seq<nat>, rest: Option<seq<nat>>): Option<seq<nat>> {
    match rest
    case None => None
    case Some(s) => Some(done + s)
  }

  /** Writes indexes as differences. */
  method WriteIndexes(indexes: seq<nat>) returns (diffs: seq<int>)
    ensures diffs == Differences(indexes)
  {
    diffs := [];
    var i := 0;
    while i < |indexes|
      invariant i <= |indexes| && diffs == Differences(indexes)[..i]
    {
      diffs := diffs + [if i == 0 then indexes[0] else Beyond(indexes[i - 1], indexes[i])];
      i := i + 1;
    }
  }

  /** Reads differences, then turns them into indexes in place. */
  method ReadIndexes(diffs: seq<nat>) returns (r: Option<seq<nat>>)
    ensures r == Indexes(diffs, 0)
  {
    hide Indexes;
    var i := 0;
    while i < |diffs|
      invariant i <= |diffs| && forall k | 0 <= k < i :: diffs[k] <= MAX_INDEX
    {
      if diffs[i] > MAX_INDEX {
        TooLarge(diffs, 0, i);
        return None;
      }
      i := i + 1;
    }
    var indexes: seq<nat> := diffs;
    var offset, j := 0, 0;
    ReadStart(diffs);
    while j < |indexes|
      invariant j <= |indexes| == |diffs| && 0 <= offset <= MAX_INDEX
      invariant forall k | j <= k < |diffs| :: indexes[k] == diffs[k]
      invariant Indexes(diffs, 0) == After(indexes[..j], Indexes(diffs[j..], offset))
    {
      ReadStep(diffs, j, offset, indexes[..j]);
      if indexes[j] + offset > MAX_INDEX { return None; }
      ghost var before := indexes[..j];
      indexes := indexes[j := indexes[j] + offset];
      assert indexes[..j + 1] == before + [indexes[j]];
      offset := (indexes[j] + 1) % (MAX_INDEX + 1);
      j := j + 1;
    }
    ReadEnd(indexes, diffs, offset);
    return Some(indexes);
  }

  lemma ReadStart(diffs: seq<nat>)
    ensures Indexes(diffs, 0) == After(diffs[..0], Indexes(diffs[0..], 0))
  {
    assert diffs[0..] == diffs;
    if Indexes(diffs, 0).Some? { assert diffs[..0] + Indexes(diffs, 0).value == Indexes(diffs, 0).value; }
  }

  lemma ReadStep(diffs: seq<nat>, j: nat, offset: nat, done: seq<nat>)
    requires j < |diffs| && diffs[j] <= MAX_INDEX
    ensures diffs[j] + offset > MAX_INDEX ==> Indexes(diffs[j..], offset).None?
    ensures diffs[j] + offset <= MAX_INDEX ==>
      var index := diffs[j] + offset;
      After(done, Indexes(diffs[j..], offset)) == After(done + [index], Indexes(diffs[j + 1..], (index + 1) % (MAX_INDEX + 1)))
  {
    assert diffs[j..][1..] == diffs[j + 1..];
    var rest := Indexes(diffs[j + 1..], (diffs[j] + offset + 1) % (MAX_INDEX + 1));
    if rest.Some? { assert done + ([diffs[j] + offset] + rest.value) == (done + [diffs[j] + offset]) + rest.value; }
  }

  lemma ReadEnd(indexes: seq<nat>, diffs: seq<nat>, offset: nat)
    requires |indexes| == |diffs|
    ensures After(indexes[..|diffs|], Indexes(diffs[|diffs|..], offset)) == Some(indexes)
  {
    assert indexes[..|diffs|] + [] == indexes;
  }

  // A compact block and the slots of the block to rebuild

  datatype Prefilled = Prefilled(index: nat, tx: Tx)

  datatype Compact = Compact(headerIsNull: bool, shortids: seq<nat>, prefilled: seq<Prefilled>)

  type Slots = seq<Option<Tx>>

  function Empties(slots: Slots): (r: seq<bool>)
    ensures |r| == |slots|
  {
    seq(|slots|, i requires 0 <= i < |slots| => slots[i].None?)
  }

  /** The empty slots from lo on, below hi. */
  function Free(slots: Slots, lo: nat, hi: nat): seq<nat>
    requires lo <= hi <= |slots|
  {
    Matched(Empties(slots), lo, hi)
  }

  function AllFree(slots: Slots): seq<nat> { Free(slots, 0, |slots|) }

  /** Puts the whole transactions in place. Indexes count from the last one placed; a null
      transaction, an index beyond 16 bits or one leaving a gap too large is refused. */
  function Placed(slots: Slots, last: int, i: nat, pre: seq<Prefilled>, short: nat): (r: Option<Slots>)
    requires -1 <= last && i <= |pre| && |slots| == short + |pre|
    ensures r.Some? ==> |r.value| == |slots|
    decreases |pre| - i
  {
    if i == |pre| then Some(slots)
    else if pre[i].tx.isNull then None
    else
      var at := last + pre[i].index + 1;
      if at > MAX_INDEX || at > short + i then None
      else Placed(slots[at := Some(pre[i].tx)], at, i + 1, pre, short)
  }

  ghost predicate EmptyFrom(slots: Slots, at: int) {
    forall j | 0 <= j < |slots| && j >= at :: slots[j].None?
  }

  lemma FreeTake(slots: Slots, at: nat, x: Tx)
    requires at < |slots| && slots[at].None?
    ensures |AllFree(slots[at := Some(x)])| == |AllFree(slots)| - 1
  {
    var after := slots[at := Some(x)];
    var n := |slots|;
    FreeSame(slots, after, 0, at);
    FreeSame(slots, after, at + 1, n);
    MatchedSplit(Empties(slots), 0, at, n);
    MatchedSplit(Empties(after), 0, at, n);
    MatchedSplit(Empties(slots), at, at + 1, n);
    MatchedSplit(Empties(after), at, at + 1, n);
    MatchedOne(Empties(slots), at);
    MatchedOne(Empties(after), at);
  }

  lemma {:induction false} FreeSame(a: Slots, b: Slots, lo: nat, hi: nat)
    requires lo <= hi <= |a| == |b| && forall i | lo <= i < hi :: a[i].None? == b[i].None?
    ensures Free(a, lo, hi) == Free(b, lo, hi)
    decreases hi - lo
  {
    if lo < hi { FreeSame(a, b, lo + 1, hi); }
  }

  /** Once placed, as many slots are free as there are short ids. */
  lemma {:induction false} PlacedFree(slots: Slots, last: int, i: nat, pre: seq<Prefilled>, short: nat)
    requires -1 <= last && i <= |pre| && |slots| == short + |pre| && EmptyFrom(slots, last + 1)
    requires |AllFree(slots)| == short + |pre| - i
    requires Placed(slots, last, i, pre, short).Some?
    ensures |AllFree(Placed(slots, last, i, pre, short).value)| == short
    decreases |pre| - i
  {
    hide Free;
    if i < |pre| {
      var at := last + pre[i].index + 1;
      FreeTake(slots, at, pre[i].tx);
      PlacedFree(slots[at := Some(pre[i].tx)], at, i + 1, pre, short);
    }
  }

  function NoSlots(n: nat): (r: Slots)
    ensures |r| == n
  {
    seq(n, _ => None)
  }

  lemma {:induction false} FreeAll(slots: Slots, lo: nat)
    requires lo <= |slots| && EmptyFrom(slots, lo)
    ensures |Free(slots, lo, |slots|)| == |slots| - lo
    decreases |slots| - lo
  {
    if lo < |slots| { FreeAll(slots, lo + 1); }
  }

  lemma PlacedStart(pre: seq<Prefilled>, short: nat)
    requires Placed(NoSlots(short + |pre|), -1, 0, pre, short).Some?
    ensures |AllFree(Placed(NoSlots(short + |pre|), -1, 0, pre, short).value)| == short
  {
    FreeAll(NoSlots(short + |pre|), 0);
    PlacedFree(NoSlots(short + |pre|), -1, 0, pre, short);
  }

  function Distances(pre: seq<Prefilled>): (r: seq<nat>)
    ensures |r| == |pre|
  {
    seq(|pre|, i requires 0 <= i < |pre| => pre[i].index)
  }

  /** Where the whole transactions belong: each index counts from the one before. */
  function PlacesOf(pre: seq<Prefilled>): (r: seq<nat>)
    ensures |r| == |pre|
  {
    Unbounded(Distances(pre), 0)
  }

  /** Transaction k has its place, and leaves no slot before it that nothing would fill. */
  predicate Placeable(pre: seq<Prefilled>, at: seq<nat>, k: nat, short: nat)
    requires k < |pre| == |at|
  {
    !pre[k].tx.isNull && at[k] <= MAX_INDEX && at[k] <= short + k
  }

  lemma {:induction false} UnboundedNext(diffs: seq<nat>, k: nat, offset: nat)
    requires k < |diffs|
    ensures Unbounded(diffs, offset)[k] == diffs[k] + (if k == 0 then offset else Unbounded(diffs, offset)[k - 1] + 1)
    decreases k
  {
    if k > 0 { UnboundedNext(diffs[1..], k - 1, diffs[0] + offset + 1); }
  }

  /** The slots while the first i transactions are in place. */
  ghost predicate InPlace(slots: Slots, pre: seq<Prefilled>, at: seq<nat>, i: nat)
    requires i <= |pre| == |at|
  {
    && (forall k | 0 <= k < i :: at[k] < |slots| && slots[at[k]] == Some(pre[k].tx))
    && (forall j | 0 <= j < |slots| && j !in at[..i] :: slots[j].None?)
  }

  lemma {:induction false} PlacedFrom(slots: Slots, i: nat, pre: seq<Prefilled>, short: nat)
    requires i <= |pre| && |slots| == short + |pre| && InPlace(slots, pre, PlacesOf(pre), i)
    ensures var at := PlacesOf(pre);
      var r := Placed(slots, if i == 0 then -1 else at[i - 1], i, pre, short);
      && (r.Some? <==> forall k | i <= k < |pre| :: Placeable(pre, at, k, short))
      && (r.Some? ==> InPlace(r.value, pre, at, |pre|))
    decreases |pre| - i
  {
    hide InPlace, PlacesOf;
    var at := PlacesOf(pre);
    if i < |pre| {
      PlacesNext(pre, i);
      if Placeable(pre, at, i, short) {
        InPlaceNext(slots, pre, i);
        PlacedFrom(slots[at[i] := Some(pre[i].tx)], i + 1, pre, short);
      }
    }
  }

  lemma PlacesNext(pre: seq<Prefilled>, i: nat)
    requires i < |pre|
    ensures PlacesOf(pre)[i] == (if i == 0 then 0 else PlacesOf(pre)[i - 1] + 1) + pre[i].index
  {
    hide Unbounded;
    UnboundedNext(Distances(pre), i, 0);
  }

  lemma InPlaceNext(slots: Slots, pre: seq<Prefilled>, i: nat)
    requires i < |pre| && InPlace(slots, pre, PlacesOf(pre), i) && PlacesOf(pre)[i] < |slots|
    ensures InPlace(slots[PlacesOf(pre)[i] := Some(pre[i].tx)], pre, PlacesOf(pre), i + 1)
  {
    hide Unbounded;
    UnboundedRises(Distances(pre), 0);
    var at := PlacesOf(pre);
    assert at[..i + 1] == at[..i] + [at[i]];
  }

  /** A compact block's whole transactions are accepted exactly if none is null and each has a place that leaves no
      unfillable gap; then they are at their places and every other slot is free. */
  lemma PlacedExactly(pre: seq<Prefilled>, short: nat)
    ensures var at := PlacesOf(pre);
      var r := Placed(NoSlots(short + |pre|), -1, 0, pre, short);
      && (r.Some? <==> forall k | 0 <= k < |pre| :: Placeable(pre, at, k, short))
      && (r.Some? ==> InPlace(r.value, pre, at, |pre|)) && Ascending(at)
  {
    hide Unbounded, Placed;
    UnboundedRises(Distances(pre), 0);
    PlacedFrom(NoSlots(short + |pre|), 0, pre, short);
  }

  // Short ids and their slots

  /** The slot each short id stands for: the i-th id the i-th free one. A repeated id keeps the last. */
  function SlotMap(ids: seq<nat>, free: seq<nat>, i: nat): map<nat, nat>
    requires i <= |ids| <= |free|
  {
    if i == 0 then map[] else SlotMap(ids, free, i - 1)[ids[i - 1] := free[i - 1]]
  }

  ghost predicate DistinctIds(ids: seq<nat>, n: nat)
    requires n <= |ids|
  {
    forall i, j | 0 <= i < j < n :: ids[i] != ids[j]
  }

  ghost predicate Listed(ids: seq<nat>, n: nat, id: nat)
    requires n <= |ids|
  {
    exists k | 0 <= k < n :: ids[k] == id
  }

  lemma {:induction false} SlotMapKeys(ids: seq<nat>, free: seq<nat>, n: nat, id: nat)
    requires n <= |ids| <= |free|
    ensures id in SlotMap(ids, free, n) <==> Listed(ids, n, id)
    decreases n
  {
    if n > 0 {
      SlotMapKeys(ids, free, n - 1, id);
      if Listed(ids, n - 1, id) {
        var k :| 0 <= k < n - 1 && ids[k] == id;
        assert Listed(ids, n, id);
      }
    }
  }

  /** The map has an entry per id exactly when no two ids are the same. */
  lemma {:induction false} SlotMapSize(ids: seq<nat>, free: seq<nat>, n: nat)
    requires n <= |ids| <= |free|
    ensures |SlotMap(ids, free, n)| <= n && (|SlotMap(ids, free, n)| == n <==> DistinctIds(ids, n))
    decreases n
  {
    if n > 0 {
      SlotMapSize(ids, free, n - 1);
      SlotMapKeys(ids, free, n - 1, ids[n - 1]);
      AddedKey(SlotMap(ids, free, n - 1), ids[n - 1], free[n - 1]);
    }
  }

  lemma {:induction false} SlotMapAt(ids: seq<nat>, free: seq<nat>, n: nat, k: nat)
    requires k < n <= |ids| <= |free| && DistinctIds(ids, n)
    ensures ids[k] in SlotMap(ids, free, n) && SlotMap(ids, free, n)[ids[k]] == free[k]
    decreases n
  {
    if k < n - 1 { SlotMapAt(ids, free, n - 1, k); }
  }

  lemma AddedKey(m: map<nat, nat>, k: nat, v: nat)
    ensures |m[k := v]| == if k in m then |m| else |m| + 1
  {
    var m' := m[k := v];
    assert m'.Keys == m.Keys + {k};
    if k in m { assert m'.Keys == m.Keys; }
    assert |m| == |m.Keys| && |m'| == |m'.Keys|;
  }
}
