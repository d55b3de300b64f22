/** The cuckoo cache's table as a value: ageing, insertion with displacement, and
    what every reachable table satisfies. */
module CuckooTable {
  import opened Basics

  /** slots holds the elements; garbage marks what may be overwritten; recent marks
      the current epoch. The table starts filled with a blank element. */
  datatype Table<T> = Table(slots: seq<T>, garbage: seq<bool>, recent: seq<bool>, counter: nat, epochSize: nat)
  {
    ghost predicate Shape() {
      |garbage| == |slots| && |recent| == |slots| && |slots| >= 2 && epochSize >= 1
    }
  }

  /** Each element's eight positions. */
  ghost predicate LocsOk<T(!new)>(locs: T -> seq<nat>, size: nat) {
    forall e :: |locs(e)| == 8 && forall k | 0 <= k < 8 :: locs(e)[k] < size
  }

  // The invariant

  /** Every element but the blank one sits at one of its own positions, and only once. */
  ghost predicate Placed<T(!new)>(locs: T -> seq<nat>, blank: T, slots: seq<T>) {
    && (forall i | 0 <= i < |slots| && slots[i] != blank :: i in locs(slots[i]))
    && (forall i, j | 0 <= i < j < |slots| && slots[i] == slots[j] :: slots[i] == blank)
  }

  ghost predicate IsRecent<T>(t: Table<T>, i: int) {
    0 <= i < |t.slots| && i < |t.recent| && i < |t.garbage| && t.recent[i] && !t.garbage[i]
  }

  /** The positions of recent elements that may not be overwritten. */
  ghost function RecentSet<T>(t: Table<T>): set<int> {
    set i | 0 <= i < |t.slots| && IsRecent(t, i)
  }

  function Max(a: nat, b: nat): nat { if a >= b then a else b }

  function Slack(epochSize: nat): nat { Max(1, epochSize / 16) }

  ghost predicate Valid<T(!new)>(locs: T -> seq<nat>, blank: T, t: Table<T>) {
    && t.Shape() && LocsOk(locs, |t.slots|)
    && Placed(locs, blank, t.slots)
    && |RecentSet(t)| + t.counter <= t.epochSize + Slack(t.epochSize)
  }

  /** The elements, other than the blank one, that may not be overwritten. */
  ghost function Live<T>(t: Table<T>, blank: T): set<T> {
    set i | 0 <= i < |t.slots| && i < |t.garbage| && !t.garbage[i] && t.slots[i] != blank :: t.slots[i]
  }

  // Ageing

  /** Recent entries become old and old ones become garbage. */
  function Age<T>(t: Table<T>): Table<T>
    requires |t.garbage| == |t.recent|
  {
    t.(recent := seq(|t.recent|, i => false),
       garbage := seq(|t.garbage|, i requires 0 <= i < |t.garbage| => t.garbage[i] || !t.recent[i]),
       counter := t.epochSize)
  }

  /** The number of recent entries among the first n positions. */
  function CountRecent<T>(t: Table<T>, n: nat): nat
    requires n <= |t.recent| && n <= |t.garbage|
  {
    if n == 0 then 0 else CountRecent(t, n - 1) + (if t.recent[n - 1] && !t.garbage[n - 1] then 1 else 0)
  }

  function EpochCheck<T>(t: Table<T>): Table<T>
    requires t.Shape()
  {
    if t.counter != 0 then t.(counter := t.counter - 1)
    else
      var unused := CountRecent(t, |t.slots|);
      if unused >= t.epochSize then Age(t)
      else t.(counter := Max(1, Max(t.epochSize / 16, t.epochSize - unused)))
  }

  lemma {:induction false} CountIsSize<T>(t: Table<T>, n: nat)
    requires t.Shape() && n <= |t.slots|
    ensures CountRecent(t, n) == |set i | 0 <= i < n && IsRecent(t, i)|
  {
    if n == 0 {
      assert (set i | 0 <= i < n && IsRecent(t, i)) == {};
    } else {
      CountIsSize(t, n - 1);
      var s, r := set i | 0 <= i < n - 1 && IsRecent(t, i), set i | 0 <= i < n && IsRecent(t, i);
      if IsRecent(t, n - 1) { assert r == s + {n - 1}; } else { assert r == s; }
    }
  }

  /** Before each insertion the epoch check makes room for one more recent entry. */
  lemma EpochCheckKeeps<T(!new)>(locs: T -> seq<nat>, blank: T, t: Table<T>)
    requires Valid(locs, blank, t)
    ensures var u := EpochCheck(t);
      && u.slots == t.slots && u.Shape() && u.epochSize == t.epochSize
      && |RecentSet(u)| + 1 + u.counter <= u.epochSize + Slack(u.epochSize)
  {
    CountIsSize(t, |t.slots|);
    assert RecentSet(t) == set i | 0 <= i < |t.slots| && IsRecent(t, i);
    var u := EpochCheck(t);
    if t.counter == 0 && CountRecent(t, |t.slots|) >= t.epochSize {
      assert RecentSet(u) == {};
    } else {
      assert RecentSet(u) == RecentSet(t);
    }
  }

  /** Ageing keeps exactly the recent live elements, and none of them is recent after it. */
  lemma AgeKeepsRecent<T(!new)>(t: Table<T>, blank: T)
    requires t.Shape()
    ensures RecentSet(Age(t)) == {}
    ensures Live(Age(t), blank) == set i | i in RecentSet(t) && t.slots[i] != blank :: t.slots[i]
  {
  }

  /** The elements that stay live through the epoch check: the recent ones if the scan is due and finds a
      whole epoch of them, and all of them otherwise. */
  ghost function Surviving<T>(t: Table<T>, blank: T): set<T>
    requires t.Shape()
  {
    if t.counter == 0 && |RecentSet(t)| >= t.epochSize
    then set i | i in RecentSet(t) && t.slots[i] != blank :: t.slots[i]
    else Live(t, blank)
  }

  /** Nothing is aged while fewer than an epoch's entries are recent, or before the scan is due. */
  lemma EpochCheckExactly<T(!new)>(t: Table<T>, blank: T)
    requires t.Shape()
    ensures Live(EpochCheck(t), blank) == Surviving(t, blank)
    ensures |RecentSet(t)| < t.epochSize || t.counter > 0 ==>
      EpochCheck(t).garbage == t.garbage && EpochCheck(t).recent == t.recent
    ensures t.counter > 0 ==> EpochCheck(t).counter == t.counter - 1
    ensures t.counter == 0 && |RecentSet(t)| >= t.epochSize ==> EpochCheck(t).counter == t.epochSize
    ensures t.counter == 0 && |RecentSet(t)| < t.epochSize ==>
      var c := EpochCheck(t).counter;
      && c >= 1 && c >= t.epochSize / 16 && c + |RecentSet(t)| >= t.epochSize
      && (c == 1 || c == t.epochSize / 16 || c + |RecentSet(t)| == t.epochSize)
    ensures |RecentSet(t)| < t.epochSize ==> Surviving(t, blank) == Live(t, blank)
  {
    CountIsSize(t, |t.slots|);
    assert RecentSet(t) == set i | 0 <= i < |t.slots| && IsRecent(t, i);
    if t.counter == 0 && |RecentSet(t)| >= t.epochSize { AgeKeepsRecent(t, blank); }
  }

  // Insertion

  /** The first k from which position ls[k] may be overwritten, or 8. */
  function FirstGarbage<T>(t: Table<T>, ls: seq<nat>, k: nat): (r: nat)
    requires |ls| == 8 && k <= 8 && t.Shape() && forall j | 0 <= j < 8 :: ls[j] < |t.slots|
    ensures k <= r <= 8
    ensures forall j | k <= j < r :: !t.garbage[ls[j]]
    ensures r < 8 ==> t.garbage[ls[r]]
    decreases 8 - k
  {
    if k == 8 then 8 else if t.garbage[ls[k]] then k else FirstGarbage(t, ls, k + 1)
  }

  function FirstHolding<T(==)>(t: Table<T>, ls: seq<nat>, e: T, k: nat): (r: nat)
    requires |ls| == 8 && k <= 8 && forall j | 0 <= j < 8 :: ls[j] < |t.slots|
    ensures k <= r <= 8
    ensures forall j | k <= j < r :: t.slots[ls[j]] != e
    ensures r < 8 ==> t.slots[ls[r]] == e
    decreases 8 - k
  {
    if k == 8 then 8 else if t.slots[ls[k]] == e then k else FirstHolding(t, ls, e, k + 1)
  }

  function IndexOf(ls: seq<nat>, loc: int, k: nat): (r: nat)
    requires k <= |ls|
    ensures k <= r <= |ls|
    decreases |ls| - k
  {
    if k == |ls| then k else if ls[k] == loc then k else IndexOf(ls, loc, k + 1)
  }

  function Put<T>(t: Table<T>, loc: nat, e: T, epoch: bool): Table<T>
    requires t.Shape() && loc < |t.slots|
  {
    t.(slots := t.slots[loc := e], garbage := t.garbage[loc := false], recent := t.recent[loc := epoch])
  }

  /** Swaps an element in; the one at loc comes out. */
  function Swap<T>(t: Table<T>, loc: nat, e: T, epoch: bool): Table<T>
    requires t.Shape() && loc < |t.slots|
  {
    t.(slots := t.slots[loc := e], recent := t.recent[loc := epoch])
  }

  /** The displacement loop. The second result is the element that found no place. */
  function Displace<T(!new)>(locs: T -> seq<nat>, t: Table<T>, e: T, lastLoc: int, lastEpoch: bool, depth: nat): (Table<T>, Option<T>)
    requires t.Shape() && LocsOk(locs, |t.slots|)
    decreases depth
  {
    if depth == 0 then (t, Some(e))
    else
      var ls := locs(e);
      var k := FirstGarbage(t, ls, 0);
      if k < 8 then (Put(t, ls[k], e, lastEpoch), None)
      else
        var loc := ls[(1 + IndexOf(ls, lastLoc, 0)) % 8];
        Displace(locs, Swap(t, loc, e, lastEpoch), t.slots[loc], loc, t.recent[loc], depth - 1)
  }

  function Insert<T(==,!new)>(locs: T -> seq<nat>, t: Table<T>, e: T, depthLimit: nat): (Table<T>, Option<T>)
    requires t.Shape() && LocsOk(locs, |t.slots|)
  {
    var u := EpochCheck(t);
    var ls := locs(e);
    var k := FirstHolding(u, ls, e, 0);
    if k < 8 then (u.(garbage := u.garbage[ls[k] := false], recent := u.recent[ls[k] := true]), None)
    else Displace(locs, u, e, -1, true, depthLimit)
  }

  // What insertion keeps

  ghost predicate Absent<T(!new)>(slots: seq<T>, blank: T, e: T) {
    e == blank || e !in slots
  }

  /** Replacing any slot by an absent element at one of its own positions. */
  lemma ReplaceKeeps<T(!new)>(locs: T -> seq<nat>, blank: T, slots: seq<T>, loc: nat, e: T)
    requires Placed(locs, blank, slots) && Absent(slots, blank, e) && loc < |slots| && loc in locs(e)
    ensures Placed(locs, blank, slots[loc := e])
    ensures Absent(slots[loc := e], blank, slots[loc])
  {
    var r := slots[loc := e];
    forall i, j | 0 <= i < j < |r| && r[i] == r[j] ensures r[i] == blank {
      if i == loc || j == loc { assert slots[if i == loc then j else i] in slots; }
    }
  }

  lemma RecentPut<T(!new)>(t: Table<T>, loc: nat, e: T, epoch: bool)
    requires t.Shape() && loc < |t.slots| && t.garbage[loc]
    ensures |RecentSet(Put(t, loc, e, epoch))| == |RecentSet(t)| + (if epoch then 1 else 0)
  {
    var u := Put(t, loc, e, epoch);
    assert loc !in RecentSet(t);
    if epoch { assert RecentSet(u) == RecentSet(t) + {loc}; } else { assert RecentSet(u) == RecentSet(t); }
  }

  lemma RecentSwap<T(!new)>(t: Table<T>, loc: nat, e: T, epoch: bool)
    requires t.Shape() && loc < |t.slots| && !t.garbage[loc]
    ensures |RecentSet(Swap(t, loc, e, epoch))| + (if t.recent[loc] then 1 else 0) == |RecentSet(t)| + (if epoch then 1 else 0)
  {
    hide RecentSet;
    var u := Swap(t, loc, e, epoch);
    RecentElsewhere(t, loc, e, epoch);
    SizeWithout(RecentSet(t), loc);
    SizeWithout(RecentSet(u), loc);
  }

  lemma RecentElsewhere<T(!new)>(t: Table<T>, loc: nat, e: T, epoch: bool)
    requires t.Shape() && loc < |t.slots| && !t.garbage[loc]
    ensures var u := Swap(t, loc, e, epoch);
      && RecentSet(u) - {loc} == RecentSet(t) - {loc}
      && (loc in RecentSet(t) <==> t.recent[loc]) && (loc in RecentSet(u) <==> epoch)
  {
    var u := Swap(t, loc, e, epoch);
    forall i: int | i != loc ensures i in RecentSet(u) <==> i in RecentSet(t) {
    }
  }

  lemma SizeWithout(s: set<int>, x: int)
    ensures |s| == |s - {x}| + (if x in s then 1 else 0)
  {
    if x in s { assert s == (s - {x}) + {x}; } else { assert s == s - {x}; }
  }

  /** The element, unless it is the blank one. */
  ghost function Only<T>(e: T, blank: T): set<T> { if e == blank then {} else {e} }

  lemma LivePut<T(!new)>(t: Table<T>, blank: T, loc: nat, e: T, epoch: bool)
    requires t.Shape() && loc < |t.slots| && t.garbage[loc]
    ensures Live(Put(t, loc, e, epoch), blank) == Live(t, blank) + Only(e, blank)
  {
    var u := Put(t, loc, e, epoch);
    assert u.slots[loc] == e;
    forall x | x in Live(t, blank) + Only(e, blank) ensures x in Live(u, blank) {
      if x in Live(t, blank) {
        var i :| 0 <= i < |t.slots| && !t.garbage[i] && t.slots[i] != blank && t.slots[i] == x;
        assert u.slots[i] == x;
      }
    }
  }

  lemma LiveSwap<T(!new)>(t: Table<T>, blank: T, loc: nat, e: T, epoch: bool)
    requires t.Shape() && loc < |t.slots| && !t.garbage[loc]
    ensures Live(Swap(t, loc, e, epoch), blank) + Only(t.slots[loc], blank) == Live(t, blank) + Only(e, blank)
  {
    var u, v := Swap(t, loc, e, epoch), t.slots[loc];
    assert u.slots[loc] == e;
    forall x | x in Live(t, blank) + Only(e, blank) ensures x in Live(u, blank) + Only(v, blank) {
      if x in Live(t, blank) {
        var i :| 0 <= i < |t.slots| && !t.garbage[i] && t.slots[i] != blank && t.slots[i] == x;
        if i != loc { assert u.slots[i] == x; }
      }
    }
    forall x | x in Live(u, blank) + Only(v, blank) ensures x in Live(t, blank) + Only(e, blank) {
      if x in Live(u, blank) {
        var i :| 0 <= i < |u.slots| && !u.garbage[i] && u.slots[i] != blank && u.slots[i] == x;
        if i != loc { assert t.slots[i] == x; }
      } else {
        assert t.slots[loc] == x;
      }
    }
  }

  ghost function Dropped<T>(d: Option<T>, blank: T): set<T> {
    match d
    case None => {}
    case Some(x) => Only(x, blank)
  }

  function One(b: bool): nat { if b then 1 else 0 }

  /** The loop moves elements among their own positions. Of the live elements and the
      new one, exactly the element that found no place is lost. */
  lemma {:induction false} DisplaceKeeps<T(!new)>(locs: T -> seq<nat>, blank: T, t: Table<T>, e: T, lastLoc: int, lastEpoch: bool, depth: nat)
    requires t.Shape() && LocsOk(locs, |t.slots|) && Placed(locs, blank, t.slots) && Absent(t.slots, blank, e)
    ensures var (u, d) := Displace(locs, t, e, lastLoc, lastEpoch, depth);
      && u.Shape() && |u.slots| == |t.slots| && u.counter == t.counter && u.epochSize == t.epochSize
      && Placed(locs, blank, u.slots)
      && |RecentSet(u)| <= |RecentSet(t)| + One(lastEpoch)
      && Live(u, blank) + Dropped(d, blank) == Live(t, blank) + Only(e, blank)
    decreases depth
  {
    hide Placed, RecentSet, Live, Absent, LocsOk, IndexOf, FirstGarbage;
    if depth > 0 {
      LocsAt(locs, |t.slots|, e);
      var ls := locs(e);
      var k := FirstGarbage(t, ls, 0);
      if k < 8 {
        ReplaceKeeps(locs, blank, t.slots, ls[k], e);
        RecentPut(t, ls[k], e, lastEpoch);
        LivePut(t, blank, ls[k], e, lastEpoch);
      } else {
        var loc := ls[(1 + IndexOf(ls, lastLoc, 0)) % 8];
        ReplaceKeeps(locs, blank, t.slots, loc, e);
        RecentSwap(t, loc, e, lastEpoch);
        LiveSwap(t, blank, loc, e, lastEpoch);
        DisplaceKeeps(locs, blank, Swap(t, loc, e, lastEpoch), t.slots[loc], loc, t.recent[loc], depth - 1);
      }
    }
  }

  // When an element is dropped

  /** All eight positions of e are taken by elements that may not be overwritten. */
  ghost predicate Full<T(!new)>(locs: T -> seq<nat>, t: Table<T>, e: T)
    requires t.Shape() && LocsOk(locs, |t.slots|)
  {
    forall k | 0 <= k < 8 :: !t.garbage[locs(e)[k]]
  }

  /** A chain of elements, each finding all its positions taken, and one of the next one's positions being
      one of its own. */
  ghost predicate Chain<T(!new)>(locs: T -> seq<nat>, t: Table<T>, blank: T, c: seq<T>)
    requires t.Shape() && LocsOk(locs, |t.slots|)
  {
    && c != []
    && (forall i | 0 <= i < |c| - 1 :: Full(locs, t, c[i]))
    && (forall i | 0 <= i < |c| - 1 :: Meets(locs, c[i], c[i + 1], blank))
  }

  ghost predicate Meets<T(!new)>(locs: T -> seq<nat>, e: T, f: T, blank: T) {
    f == blank || exists loc :: loc in locs(e) && loc in locs(f)
  }

  lemma FullExactly<T(!new)>(locs: T -> seq<nat>, t: Table<T>, e: T)
    requires t.Shape() && LocsOk(locs, |t.slots|)
    ensures |locs(e)| == 8 && (forall k | 0 <= k < 8 :: locs(e)[k] < |t.slots|)
    ensures Full(locs, t, e) <==> FirstGarbage(t, locs(e), 0) == 8
  {
    LocsAt(locs, |t.slots|, e);
  }

  lemma FullSame<T(!new)>(locs: T -> seq<nat>, t: Table<T>, u: Table<T>, blank: T, c: seq<T>)
    requires t.Shape() && u.Shape() && LocsOk(locs, |t.slots|) && |u.slots| == |t.slots| && u.garbage == t.garbage
    requires Chain(locs, u, blank, c)
    ensures Chain(locs, t, blank, c)
  {
    hide LocsOk, Meets;
    forall i | 0 <= i < |c| - 1 ensures Full(locs, t, c[i]) {
      assert Full(locs, u, c[i]);
    }
  }

  /** An element is dropped only after as many displacements as the depth allows, each element in turn finding
      all its positions taken; the last of the chain is dropped. */
  lemma {:induction false} DropsAtDepth<T(!new)>(locs: T -> seq<nat>, blank: T, t: Table<T>, e: T, lastLoc: int, lastEpoch: bool,
                                                 depth: nat) returns (c: seq<T>)
    requires t.Shape() && LocsOk(locs, |t.slots|) && Placed(locs, blank, t.slots) && Absent(t.slots, blank, e)
    requires Displace(locs, t, e, lastLoc, lastEpoch, depth).1.Some?
    ensures Chain(locs, t, blank, c) && |c| == depth + 1
    ensures c[0] == e && c[depth] == Displace(locs, t, e, lastLoc, lastEpoch, depth).1.value
    decreases depth
  {
    hide LocsOk, Placed, Absent, FirstGarbage, IndexOf, Full, Meets;
    if depth == 0 {
      c := [e];
    } else {
      FullExactly(locs, t, e);
      var ls := locs(e);
      var loc := ls[(1 + IndexOf(ls, lastLoc, 0)) % 8];
      var u, f := Swap(t, loc, e, lastEpoch), t.slots[loc];
      ReplaceKeeps(locs, blank, t.slots, loc, e);
      var rest := DropsAtDepth(locs, blank, u, f, loc, t.recent[loc], depth - 1);
      FullSame(locs, t, u, blank, rest);
      c := [e] + rest;
      MeetsAt(locs, blank, t, e, loc);
      forall i | 0 <= i < |c| - 1 ensures Full(locs, t, c[i]) && Meets(locs, c[i], c[i + 1], blank) {
        if i > 0 { assert c[i] == rest[i - 1] && c[i + 1] == rest[i]; }
      }
    }
  }

  lemma MeetsAt<T(!new)>(locs: T -> seq<nat>, blank: T, t: Table<T>, e: T, loc: nat)
    requires Placed(locs, blank, t.slots) && loc < |t.slots| && loc in locs(e)
    ensures Meets(locs, e, t.slots[loc], blank)
  {
  }

  /** With a position free the element is placed at once: no other slot changes, and nothing is dropped. */
  lemma FreePlaces<T(!new)>(locs: T -> seq<nat>, t: Table<T>, e: T, lastLoc: int, lastEpoch: bool, depth: nat)
    requires t.Shape() && LocsOk(locs, |t.slots|) && depth >= 1 && !Full(locs, t, e)
    ensures var (u, d) := Displace(locs, t, e, lastLoc, lastEpoch, depth);
      d.None? && exists k :: 0 <= k < 8 && t.garbage[locs(e)[k]] && u.slots == t.slots[locs(e)[k] := e]
  {
    hide LocsOk;
    FullExactly(locs, t, e);
    var ls := locs(e);
    var k := FirstGarbage(t, ls, 0);
    assert t.garbage[ls[k]] && Put(t, ls[k], e, lastEpoch).slots == t.slots[ls[k] := e];
  }

  /** Where an element goes next: after the position it came from, or to the second of its positions. */
  lemma NextPosition(ls: seq<nat>, last: int)
    requires |ls| == 8
    ensures last !in ls ==> ls[(1 + IndexOf(ls, last, 0)) % 8] == ls[1]
    ensures last in ls ==> IndexOf(ls, last, 0) < 8 && ls[IndexOf(ls, last, 0)] == last
    ensures last in ls && (forall i, j | 0 <= i < j < 8 :: ls[i] != ls[j]) ==> ls[(1 + IndexOf(ls, last, 0)) % 8] != last
  {
    IndexFound(ls, last, 0);
    var k := IndexOf(ls, last, 0);
    if last in ls { assert ls[k] == last; }
  }

  lemma {:induction false} IndexFound(ls: seq<nat>, last: int, k: nat)
    requires k <= |ls|
    ensures IndexOf(ls, last, k) < |ls| ==> ls[IndexOf(ls, last, k)] == last
    ensures IndexOf(ls, last, k) == |ls| ==> last !in ls[k..]
    decreases |ls| - k
  {
    if k < |ls| {
      IndexFound(ls, last, k + 1);
      assert ls[k..] == [ls[k]] + ls[k + 1..];
    }
  }

  // Which elements are recent

  ghost predicate RecentAt<T>(t: Table<T>, i: int, x: T) { IsRecent(t, i) && t.slots[i] == x }

  ghost predicate HeldRecent<T(!new)>(t: Table<T>, x: T) { exists i :: RecentAt(t, i, x) }

  /** After e took position loc, the other elements are recent if they were, and e as it came. */
  lemma RecentReplaced<T(!new)>(t: Table<T>, u: Table<T>, blank: T, loc: nat, e: T, epoch: bool, x: T)
    requires t.Shape() && u.Shape() && loc < |t.slots| && u.slots == t.slots[loc := e] && Absent(t.slots, blank, e)
    requires u.recent == t.recent[loc := epoch] && u.garbage == t.garbage[loc := false]
    requires x != blank && x != t.slots[loc]
    ensures HeldRecent(u, x) <==> if x == e then epoch else HeldRecent(t, x)
  {
    if x == e {
      if epoch { assert RecentAt(u, loc, x); }
      forall i | i != loc ensures !RecentAt(u, i, x) {
        if 0 <= i < |t.slots| { assert t.slots[i] in t.slots; }
      }
    } else {
      forall i ensures RecentAt(u, i, x) <==> RecentAt(t, i, x) {
      }
    }
  }

  /** An element displaced from a position that may not be overwritten is recent exactly as the flag there says. */
  lemma RecentThere<T(!new)>(locs: T -> seq<nat>, blank: T, t: Table<T>, loc: nat)
    requires t.Shape() && Placed(locs, blank, t.slots) && loc < |t.slots| && !t.garbage[loc] && t.slots[loc] != blank
    ensures HeldRecent(t, t.slots[loc]) <==> t.recent[loc]
  {
    var x := t.slots[loc];
    if t.recent[loc] { assert RecentAt(t, loc, x); }
    forall i | RecentAt(t, i, x) ensures i == loc {
      assert t.slots[i] == t.slots[loc];
    }
  }

  /** Displacement moves elements with their epochs. */
  lemma {:induction false} DisplaceEpochs<T(!new)>(locs: T -> seq<nat>, blank: T, t: Table<T>, e: T, lastLoc: int, lastEpoch: bool,
                                                   depth: nat, x: T)
    requires t.Shape() && LocsOk(locs, |t.slots|) && Placed(locs, blank, t.slots) && Absent(t.slots, blank, e)
    requires x != blank && Displace(locs, t, e, lastLoc, lastEpoch, depth).1 != Some(x)
    ensures HeldRecent(Displace(locs, t, e, lastLoc, lastEpoch, depth).0, x) <==> if x == e then lastEpoch else HeldRecent(t, x)
    decreases depth
  {
    hide Placed, Absent, LocsOk, IndexOf, FirstGarbage, HeldRecent, Full;
    if depth > 0 {
      FullExactly(locs, t, e);
      var ls := locs(e);
      var k := FirstGarbage(t, ls, 0);
      if k < 8 {
        GarbageReplaced(t, blank, ls[k], e, lastEpoch, x);
      } else {
        var loc := ls[(1 + IndexOf(ls, lastLoc, 0)) % 8];
        var u, f := Swap(t, loc, e, lastEpoch), t.slots[loc];
        FullAt(locs, t, e, (1 + IndexOf(ls, lastLoc, 0)) % 8);
        ReplaceKeeps(locs, blank, t.slots, loc, e);
        DisplaceEpochs(locs, blank, u, f, loc, t.recent[loc], depth - 1, x);
        assert t.garbage[loc := false] == t.garbage;
        if x == f {
          RecentThere(locs, blank, t, loc);
          NotBoth(t.slots, blank, e, loc);
        } else {
          RecentReplaced(t, u, blank, loc, e, lastEpoch, x);
        }
      }
    }
  }

  lemma NotBoth<T(!new)>(slots: seq<T>, blank: T, e: T, loc: nat)
    requires Absent(slots, blank, e) && loc < |slots| && slots[loc] != blank
    ensures slots[loc] != e
  {
  }

  lemma FullAt<T(!new)>(locs: T -> seq<nat>, t: Table<T>, e: T, k: nat)
    requires t.Shape() && LocsOk(locs, |t.slots|) && Full(locs, t, e) && k < 8
    ensures |locs(e)| == 8 && locs(e)[k] < |t.slots| && !t.garbage[locs(e)[k]]
  {
  }

  /** Overwriting garbage takes no recent element away. */
  lemma GarbageReplaced<T(!new)>(t: Table<T>, blank: T, loc: nat, e: T, epoch: bool, x: T)
    requires t.Shape() && loc < |t.slots| && t.garbage[loc] && Absent(t.slots, blank, e) && x != blank
    ensures HeldRecent(Put(t, loc, e, epoch), x) <==> if x == e then epoch else HeldRecent(t, x)
  {
    var u := Put(t, loc, e, epoch);
    if x == e {
      if epoch { assert RecentAt(u, loc, x); }
      forall i | i != loc ensures !RecentAt(u, i, x) {
        if 0 <= i < |t.slots| { assert t.slots[i] in t.slots; }
      }
    } else {
      forall i ensures RecentAt(u, i, x) <==> RecentAt(t, i, x) {
      }
    }
  }

  lemma NotHeldAbsent<T(!new)>(locs: T -> seq<nat>, blank: T, t: Table<T>, e: T)
    requires LocsOk(locs, |t.slots|) && Placed(locs, blank, t.slots) && FirstHolding(t, locs(e), e, 0) == 8
    ensures Absent(t.slots, blank, e)
  {
    if e != blank {
      forall i | 0 <= i < |t.slots| ensures t.slots[i] != e {
        if i in locs(e) {
          var k :| 0 <= k < 8 && locs(e)[k] == i;
        }
      }
    }
  }

  lemma HeldKeeps<T(!new)>(t: Table<T>, blank: T, loc: nat)
    requires t.Shape() && loc < |t.slots|
    ensures var u := t.(garbage := t.garbage[loc := false], recent := t.recent[loc := true]);
      && |RecentSet(u)| <= |RecentSet(t)| + 1
      && Live(u, blank) == Live(t, blank) + Only(t.slots[loc], blank)
  {
    var u := t.(garbage := t.garbage[loc := false], recent := t.recent[loc := true]);
    assert RecentSet(u) == RecentSet(t) + {loc};
    SizeWithout(RecentSet(t) + {loc}, loc);
    SizeWithout(RecentSet(t), loc);
    assert RecentSet(t) + {loc} - {loc} == RecentSet(t) - {loc};
    forall x | x in Live(t, blank) + Only(t.slots[loc], blank) ensures x in Live(u, blank) {
      if x in Live(t, blank) {
        var i :| 0 <= i < |t.slots| && !t.garbage[i] && t.slots[i] != blank && t.slots[i] == x;
        assert u.slots[i] == x;
      } else {
        assert u.slots[loc] == x;
      }
    }
  }

  /** Insert keeps the table valid. Apart from ageing, what was live and the new element
      are all live afterwards, but for the one element that found no place. */
  lemma InsertKeeps<T(!new)>(locs: T -> seq<nat>, blank: T, t: Table<T>, e: T, depthLimit: nat)
    requires Valid(locs, blank, t)
    ensures var (u, d) := Insert(locs, t, e, depthLimit);
      && Valid(locs, blank, u) && |u.slots| == |t.slots| && u.epochSize == t.epochSize
      && Live(u, blank) + Dropped(d, blank) == Surviving(t, blank) + Only(e, blank)
  {
    hide Placed, RecentSet, Live, Absent, LocsOk, Surviving;
    EpochCheckKeeps(locs, blank, t);
    EpochCheckExactly(t, blank);
    var c, ls := EpochCheck(t), locs(e);
    LocsAt(locs, |t.slots|, e);
    var k := FirstHolding(c, ls, e, 0);
    if k < 8 {
      HeldKeeps(c, blank, ls[k]);
    } else {
      NotHeldAbsent(locs, blank, c, e);
      DisplaceKeeps(locs, blank, c, e, -1, true, depthLimit);
    }
  }

  /** Insert drops something only if all positions of the new element were taken by elements that outlived the
      epoch check, and then only after the full number of displacements. */
  lemma InsertDrops<T(!new)>(locs: T -> seq<nat>, blank: T, t: Table<T>, e: T, depthLimit: nat) returns (c: seq<T>)
    requires Valid(locs, blank, t) && Insert(locs, t, e, depthLimit).1.Some?
    ensures Chain(locs, EpochCheck(t), blank, c) && |c| == depthLimit + 1
    ensures c[0] == e && c[depthLimit] == Insert(locs, t, e, depthLimit).1.value
  {
    hide Placed, RecentSet, Absent, LocsOk, Chain, Displace;
    EpochCheckKeeps(locs, blank, t);
    LocsAt(locs, |t.slots|, e);
    NotHeldAbsent(locs, blank, EpochCheck(t), e);
    c := DropsAtDepth(locs, blank, EpochCheck(t), e, -1, true, depthLimit);
  }

  /** The element inserted is found, and all that outlived the epoch check is still live, exactly unless
      something had to be dropped. */
  lemma InsertFinds<T(!new)>(locs: T -> seq<nat>, blank: T, t: Table<T>, e: T, depthLimit: nat)
    requires Valid(locs, blank, t) && e != blank && depthLimit >= 1
    ensures var (u, d) := Insert(locs, t, e, depthLimit);
      && LocsOk(locs, |u.slots|)
      && (d.None? ==> Live(u, blank) == Surviving(t, blank) + {e} && Contains(locs, u, e))
      && (!Full(locs, EpochCheck(t), e) ==> d.None?)
  {
    hide Placed, RecentSet, Live, Absent, LocsOk, Surviving, Full, Displace, EpochCheck, FirstHolding;
    InsertKeeps(locs, blank, t, e, depthLimit);
    var (u, d) := Insert(locs, t, e, depthLimit);
    EpochCheckKeeps(locs, blank, t);
    if d.None? {
      LiveStored(u, blank, e);
      ContainsExactly(locs, blank, u, e);
    }
    if !Full(locs, EpochCheck(t), e) { FreePlaces(locs, EpochCheck(t), e, -1, true, depthLimit); }
  }

  /** After an insertion the new element is recent, and every other one exactly if it was and nothing was aged. */
  lemma InsertEpochs<T(!new)>(locs: T -> seq<nat>, blank: T, t: Table<T>, e: T, depthLimit: nat, x: T)
    requires Valid(locs, blank, t) && x != blank && Insert(locs, t, e, depthLimit).1 != Some(x)
    ensures HeldRecent(Insert(locs, t, e, depthLimit).0, x) <==>
      x == e || (HeldRecent(t, x) && !(t.counter == 0 && |RecentSet(t)| >= t.epochSize))
  {
    hide Placed, RecentSet, Absent, LocsOk, HeldRecent, Displace, Age;
    EpochCheckKeeps(locs, blank, t);
    LocsAt(locs, |t.slots|, e);
    var c, ls := EpochCheck(t), locs(e);
    EpochCheckRecent(t, x);
    var k := FirstHolding(c, ls, e, 0);
    if k < 8 {
      HeldAgain(locs, blank, c, ls[k], x);
    } else {
      NotHeldAbsent(locs, blank, c, e);
      DisplaceEpochs(locs, blank, c, e, -1, true, depthLimit, x);
    }
  }

  lemma EpochCheckRecent<T(!new)>(t: Table<T>, x: T)
    requires t.Shape()
    ensures HeldRecent(EpochCheck(t), x) <==> HeldRecent(t, x) && !(t.counter == 0 && |RecentSet(t)| >= t.epochSize)
  {
    CountIsSize(t, |t.slots|);
    assert RecentSet(t) == set i | 0 <= i < |t.slots| && IsRecent(t, i);
    var u := EpochCheck(t);
    if t.counter == 0 && |RecentSet(t)| >= t.epochSize {
      forall i ensures !RecentAt(u, i, x) {
      }
    } else {
      forall i ensures RecentAt(u, i, x) <==> RecentAt(t, i, x) {
      }
    }
  }

  lemma HeldAgain<T(!new)>(locs: T -> seq<nat>, blank: T, t: Table<T>, loc: nat, x: T)
    requires t.Shape() && Placed(locs, blank, t.slots) && loc < |t.slots| && x != blank
    ensures var u := t.(garbage := t.garbage[loc := false], recent := t.recent[loc := true]);
      HeldRecent(u, x) <==> x == t.slots[loc] || HeldRecent(t, x)
  {
    var u := t.(garbage := t.garbage[loc := false], recent := t.recent[loc := true]);
    if x == t.slots[loc] { assert RecentAt(u, loc, x); }
    forall i | i != loc ensures RecentAt(u, i, x) <==> RecentAt(t, i, x) {
    }
    if HeldRecent(t, x) && x != t.slots[loc] {
      var i :| RecentAt(t, i, x);
      assert RecentAt(u, i, x);
    }
  }

  lemma LiveStored<T(!new)>(t: Table<T>, blank: T, e: T)
    requires e in Live(t, blank)
    ensures e in t.slots
  {
  }

  lemma LocsAt<T(!new)>(locs: T -> seq<nat>, size: nat, e: T)
    requires LocsOk(locs, size)
    ensures |locs(e)| == 8 && forall k | 0 <= k < 8 :: locs(e)[k] < size
  {
  }

  // Lookup

  function Contains<T(==,!new)>(locs: T -> seq<nat>, t: Table<T>, e: T): bool
    requires LocsOk(locs, |t.slots|)
  {
    FirstHolding(t, locs(e), e, 0) < 8
  }

  /** Marks the element as garbage if it is found. */
  function Erase<T(==,!new)>(locs: T -> seq<nat>, t: Table<T>, e: T): Table<T>
    requires t.Shape() && LocsOk(locs, |t.slots|)
  {
    var k := FirstHolding(t, locs(e), e, 0);
    if k < 8 then t.(garbage := t.garbage[locs(e)[k] := true]) else t
  }

  /** Looking at eight positions finds every element the table holds, garbage or not. */
  lemma ContainsExactly<T(!new)>(locs: T -> seq<nat>, blank: T, t: Table<T>, e: T)
    requires Valid(locs, blank, t) && e != blank
    ensures Contains(locs, t, e) <==> e in t.slots
  {
    if !Contains(locs, t, e) { NotHeldAbsent(locs, blank, t, e); }
  }

  /** Erasing only allows the element to be overwritten: it is found again until then. */
  lemma EraseKeeps<T(!new)>(locs: T -> seq<nat>, blank: T, t: Table<T>, e: T)
    requires Valid(locs, blank, t)
    ensures Valid(locs, blank, Erase(locs, t, e))
    ensures Contains(locs, Erase(locs, t, e), e) == Contains(locs, t, e)
    ensures Live(Erase(locs, t, e), blank) == Live(t, blank) - {e}
  {
    var u := Erase(locs, t, e);
    SameSlotsFound(locs, t, u, e, 0);
    var k := FirstHolding(t, locs(e), e, 0);
    assert RecentSet(u) <= RecentSet(t);
    Smaller(RecentSet(u), RecentSet(t));
    if k == 8 { NotHeldAbsent(locs, blank, t, e); }
    forall x | x in Live(t, blank) - {e} ensures x in Live(u, blank) {
      var i :| 0 <= i < |t.slots| && !t.garbage[i] && t.slots[i] != blank && t.slots[i] == x;
      assert u.slots[i] == x;
    }
  }

  lemma {:induction false} SameSlotsFound<T(!new)>(locs: T -> seq<nat>, t: Table<T>, u: Table<T>, e: T, k: nat)
    requires LocsOk(locs, |t.slots|) && u.slots == t.slots && k <= 8
    ensures FirstHolding(u, locs(e), e, k) == FirstHolding(t, locs(e), e, k)
    decreases 8 - k
  {
    if k < 8 { SameSlotsFound(locs, t, u, e, k + 1); }
  }

  lemma Smaller(a: set<int>, b: set<int>)
    requires a <= b
    ensures |a| <= |b|
  {
    assert b == a + (b - a);
  }

  // Runs

  datatype Op<T> = OpInsert(e: T) | OpContains(e: T, erase: bool)

  function Setup<T>(size: nat, epochSize: nat, blank: T): Table<T> {
    Table(seq(size, i => blank), seq(size, i => true), seq(size, i => false), epochSize, epochSize)
  }

  lemma SetupValid<T(!new)>(locs: T -> seq<nat>, blank: T, size: nat, epochSize: nat)
    requires size >= 2 && epochSize >= 1 && LocsOk(locs, size)
    ensures Valid(locs, blank, Setup(size, epochSize, blank))
  {
    assert RecentSet(Setup(size, epochSize, blank)) == {};
  }

  /** On a table just set up, an insertion is followed by a find. */
  lemma InsertThenFind<T(!new)>(locs: T -> seq<nat>, blank: T, size: nat, epochSize: nat, e: T, depthLimit: nat)
    requires size >= 2 && epochSize >= 1 && LocsOk(locs, size) && e != blank && depthLimit >= 1
    ensures var u := Insert(locs, Setup(size, epochSize, blank), e, depthLimit).0;
      LocsOk(locs, |u.slots|) && Contains(locs, u, e)
  {
    hide LocsOk, Insert, Contains, Full;
    SetupValid(locs, blank, size, epochSize);
    var t := Setup(size, epochSize, blank);
    LocsAt(locs, size, e);
    assert EpochCheck(t).garbage[locs(e)[0]];
    NotFull(locs, EpochCheck(t), e, 0);
    InsertFinds(locs, blank, t, e, depthLimit);
  }

  lemma NotFull<T(!new)>(locs: T -> seq<nat>, t: Table<T>, e: T, k: nat)
    requires t.Shape() && LocsOk(locs, |t.slots|) && k < 8 && |locs(e)| == 8 && locs(e)[k] < |t.slots| && t.garbage[locs(e)[k]]
    ensures !Full(locs, t, e)
  {
  }

  function Step<T(==,!new)>(locs: T -> seq<nat>, t: Table<T>, op: Op<T>, depthLimit: nat): Table<T>
    requires t.Shape() && LocsOk(locs, |t.slots|)
  {
    match op
    case OpInsert(e) => Insert(locs, t, e, depthLimit).0
    case OpContains(e, erase) => if erase then Erase(locs, t, e) else t
  }

  function Run<T(==,!new)>(locs: T -> seq<nat>, ghost blank: T, t: Table<T>, ops: seq<Op<T>>, depthLimit: nat): (u: Table<T>)
    requires Valid(locs, blank, t)
    ensures Valid(locs, blank, u) && u.epochSize == t.epochSize
    decreases |ops|
  {
    if ops == [] then t
    else
      StepKeeps(locs, blank, t, ops[0], depthLimit);
      Run(locs, blank, Step(locs, t, ops[0], depthLimit), ops[1..], depthLimit)
  }

  lemma StepKeeps<T(!new)>(locs: T -> seq<nat>, blank: T, t: Table<T>, op: Op<T>, depthLimit: nat)
    requires Valid(locs, blank, t)
    ensures Valid(locs, blank, Step(locs, t, op, depthLimit)) && Step(locs, t, op, depthLimit).epochSize == t.epochSize
  {
    hide Placed, RecentSet, Live, LocsOk, Insert, Erase;
    match op
    case OpInsert(e) => InsertKeeps(locs, blank, t, e, depthLimit);
    case OpContains(e, erase) => EraseKeeps(locs, blank, t, e); EraseShape(locs, t, e);
  }

  lemma EraseShape<T(!new)>(locs: T -> seq<nat>, t: Table<T>, e: T)
    requires t.Shape() && LocsOk(locs, |t.slots|)
    ensures Erase(locs, t, e).epochSize == t.epochSize
  {
  }

  /** In every reachable table each element other than the blank one is at one of its
      own positions and nowhere else, and the recent live entries do not exceed the
      epoch size by more than the scan interval. */
  lemma EveryRun<T(!new)>(locs: T -> seq<nat>, blank: T, size: nat, epochSize: nat, ops: seq<Op<T>>, depthLimit: nat)
    requires size >= 2 && epochSize >= 1 && LocsOk(locs, size)
    ensures Valid(locs, blank, Setup(size, epochSize, blank))
    ensures var u := Run(locs, blank, Setup(size, epochSize, blank), ops, depthLimit);
      && Placed(locs, blank, u.slots)
      && |RecentSet(u)| <= epochSize + Slack(epochSize)
  {
    hide Placed, RecentSet, Run;
    SetupValid(locs, blank, size, epochSize);
  }
}
