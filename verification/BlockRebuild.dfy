/** Rebuilding a block from its compact form: matching known transactions by short id, asking
    for the missing ones, and filling them in. */
module BlockRebuild {
  import opened Basics
  import opened CompactBlock
  import opened Consensus
  import opened PartialMerkle

  /** A transaction at hand, with the hash its short id is computed from. */
  datatype Known = Known(hash: nat, tx: Tx)

  /** Slots, whether each has ever been matched, and how many hold a match. */
  datatype Progress = Progress(slots: Slots, have: seq<bool>, count: int)

  ghost predicate MapOk(m: map<nat, nat>, n: nat) {
    && (forall id | id in m :: m[id] < n)
    && (forall id, id' | id in m && id' in m && m[id] == m[id'] :: id == id')
  }

  /** A known transaction is matched. A second match empties the slot again; from the extra ones
      only if the two differ. */
  function Offer(shortid: nat -> nat, m: map<nat, nat>, p: Progress, k: Known, extra: bool): (r: Progress)
    requires MapOk(m, |p.slots|) && |p.have| == |p.slots|
    ensures |r.slots| == |r.have| == |p.slots|
  {
    var id := shortid(k.hash);
    if id !in m then p
    else
      var at := m[id];
      if !p.have[at] then Progress(p.slots[at := Some(k.tx)], p.have[at := true], p.count + 1)
      else if p.slots[at].Some? && (extra ==> p.slots[at].value.witnessHash != k.tx.witnessHash)
      then p.(slots := p.slots[at := None], count := p.count - 1)
      else p
  }

  /** One after another, until every short id has its match. */
  function Offers(shortid: nat -> nat, m: map<nat, nat>, p: Progress, ks: seq<Known>, extra: bool): (r: Progress)
    requires MapOk(m, |p.slots|) && |p.have| == |p.slots|
    ensures |r.slots| == |r.have| == |p.slots|
    decreases |ks|
  {
    if ks == [] then p
    else
      var q := Offer(shortid, m, p, ks[0], extra);
      if q.count == |m| then q else Offers(shortid, m, q, ks[1..], extra)
  }

  ghost predicate Holds(m: map<nat, nat>, slots: Slots, id: nat)
    requires id in m && m[id] < |slots|
  {
    slots[m[id]].Some?
  }

  /** Slots without a short id stay as they were, matched slots were marked, and the count is the
      number of slots filled since. */
  ghost predicate Sound(m: map<nat, nat>, base: Slots, p: Progress) {
    && |p.slots| == |p.have| == |base| && MapOk(m, |base|)
    && (forall i | 0 <= i < |base| && Unmapped(m, i) :: p.slots[i] == base[i])
    && (forall id | id in m :: Holds(m, p.slots, id) ==> Had(m, p, id))
    && p.count + |AllFree(p.slots)| == |AllFree(base)|
  }

  ghost predicate Unmapped(m: map<nat, nat>, i: nat) { forall id | id in m :: m[id] != i }

  ghost predicate Had(m: map<nat, nat>, p: Progress, id: nat)
    requires id in m && m[id] < |p.have|
  {
    p.have[m[id]]
  }

  lemma FreeGive(slots: Slots, at: nat)
    requires at < |slots| && slots[at].Some?
    ensures |AllFree(slots[at := None])| == |AllFree(slots)| + 1
  {
    var after := slots[at := None];
    assert after[at := Some(slots[at].value)] == slots;
    FreeTake(after, at, slots[at].value);
  }

  lemma OfferSound(shortid: nat -> nat, m: map<nat, nat>, base: Slots, p: Progress, k: Known, extra: bool)
    requires Sound(m, base, p)
    ensures Sound(m, base, Offer(shortid, m, p, k, extra))
  {
    hide AllFree;
    var id := shortid(k.hash);
    if id in m {
      var at := m[id];
      assert !Unmapped(m, at);
      if !p.have[at] {
        FreeTake(p.slots, at, k.tx);
      } else if p.slots[at].Some? {
        FreeGive(p.slots, at);
      }
    }
  }

  lemma {:induction false} OffersSound(shortid: nat -> nat, m: map<nat, nat>, base: Slots, p: Progress, ks: seq<Known>, extra: bool)
    requires Sound(m, base, p)
    ensures Sound(m, base, Offers(shortid, m, p, ks, extra))
    decreases |ks|
  {
    hide Sound, Offer;
    SoundShape(m, base, p);
    if ks != [] {
      OfferSound(shortid, m, base, p, ks[0], extra);
      var q := Offer(shortid, m, p, ks[0], extra);
      SoundShape(m, base, q);
      if q.count != |m| { OffersSound(shortid, m, base, q, ks[1..], extra); }
    }
  }

  lemma SoundShape(m: map<nat, nat>, base: Slots, p: Progress)
    requires Sound(m, base, p)
    ensures |p.slots| == |p.have| == |base| && MapOk(m, |p.slots|)
  {
  }

  // Which transactions end up where

  /** Every transaction in place is the block's own at that index. */
  ghost predicate Right(slots: Slots, vtx: seq<Tx>) {
    |slots| == |vtx| && forall i | 0 <= i < |slots| && slots[i].Some? :: slots[i].value == vtx[i]
  }

  /** No transaction at hand has, by accident, the short id of another transaction of the block. */
  ghost predicate NoCollision(shortid: nat -> nat, m: map<nat, nat>, vtx: seq<Tx>, ks: seq<Known>) {
    forall i | 0 <= i < |ks| :: Genuine(shortid, m, vtx, ks[i])
  }

  ghost predicate Genuine(shortid: nat -> nat, m: map<nat, nat>, vtx: seq<Tx>, k: Known) {
    var id := shortid(k.hash);
    id in m ==> m[id] < |vtx| && k.tx == vtx[m[id]]
  }

  lemma {:induction false} OffersRight(shortid: nat -> nat, m: map<nat, nat>, p: Progress, ks: seq<Known>, extra: bool, vtx: seq<Tx>)
    requires MapOk(m, |p.slots|) && |p.have| == |p.slots|
    requires Right(p.slots, vtx) && NoCollision(shortid, m, vtx, ks)
    ensures Right(Offers(shortid, m, p, ks, extra).slots, vtx)
    decreases |ks|
  {
    if ks != [] {
      assert Genuine(shortid, m, vtx, ks[0]);
      var q := Offer(shortid, m, p, ks[0], extra);
      if q.count != |m| { OffersRight(shortid, m, q, ks[1..], extra, vtx); }
    }
  }

  // Filling in what is missing

  /** Fills the slots from index i on with the transactions received, in order; fails if they run out
      or some are left. */
  function FillFrom(slots: Slots, i: nat, missing: seq<Tx>, offset: nat): Option<seq<Tx>>
    requires i <= |slots| && offset <= |missing|
    decreases |slots| - i
  {
    if i == |slots| then (if offset == |missing| then Some([]) else None)
    else if slots[i].Some? then Cons(slots[i].value, FillFrom(slots, i + 1, missing, offset))
    else if offset == |missing| then None
    else Cons(missing[offset], FillFrom(slots, i + 1, missing, offset + 1))
  }

  function Cons(x: Tx, rest: Option<seq<Tx>>): Option<seq<Tx>> {
    match rest
    case None => None
    case Some(s) => Some([x] + s)
  }

  /** Filling succeeds exactly when as many transactions come as slots are empty. */
  lemma {:induction false} FillExactly(slots: Slots, i: nat, missing: seq<Tx>, offset: nat)
    requires i <= |slots| && offset <= |missing|
    ensures FillFrom(slots, i, missing, offset).Some? <==> |missing| - offset == |Free(slots, i, |slots|)|
    decreases |slots| - i
  {
    if i < |slots| {
      if slots[i].Some? {
        FillExactly(slots, i + 1, missing, offset);
      } else if offset < |missing| {
        FillExactly(slots, i + 1, missing, offset + 1);
      }
    }
  }

  /** The block's transactions at the empty slots, in index order. */
  ghost predicate Answers(missing: seq<Tx>, offset: nat, vtx: seq<Tx>, free: seq<nat>) {
    && offset + |free| == |missing|
    && forall j | 0 <= j < |free| :: free[j] < |vtx| && missing[offset + j] == vtx[free[j]]
  }

  lemma {:induction false} FillRebuilds(slots: Slots, i: nat, missing: seq<Tx>, offset: nat, vtx: seq<Tx>)
    requires i <= |slots| && offset <= |missing| && Right(slots, vtx)
    requires Answers(missing, offset, vtx, Free(slots, i, |slots|))
    ensures FillFrom(slots, i, missing, offset) == Some(vtx[i..])
    decreases |slots| - i
  {
    if i < |slots| {
      var free, rest := Free(slots, i, |slots|), Free(slots, i + 1, |slots|);
      assert vtx[i..] == [vtx[i]] + vtx[i + 1..];
      if slots[i].Some? {
        assert free == rest;
        FillRebuilds(slots, i + 1, missing, offset, vtx);
      } else {
        assert free == [i] + rest;
        assert missing[offset + 0] == vtx[free[0]];
        AnswersTail(missing, offset, vtx, free, rest);
        FillRebuilds(slots, i + 1, missing, offset + 1, vtx);
      }
    }
  }

  lemma AnswersTail(missing: seq<Tx>, offset: nat, vtx: seq<Tx>, free: seq<nat>, rest: seq<nat>)
    requires Answers(missing, offset, vtx, free) && free != [] && rest == free[1..]
    ensures Answers(missing, offset + 1, vtx, rest)
  {
    forall j | 0 <= j < |rest| ensures rest[j] < |vtx| && missing[offset + 1 + j] == vtx[rest[j]] {
      assert rest[j] == free[j + 1] && missing[offset + (j + 1)] == vtx[free[j + 1]];
    }
  }

  // From a compact block to a block

  datatype Outcome = Ready(slots: Slots, count: int) | Invalid | Failure

  /** The short ids' slots, after the whole transactions are in place. */
  function Slotting(c: Compact, base: Slots): map<nat, nat>
    requires |AllFree(base)| == |c.shortids|
  {
    SlotMap(c.shortids, AllFree(base), |c.shortids|)
  }

  /** Slots are in range, and no two ids share one. */
  lemma {:induction false} SlotMapOk(ids: seq<nat>, base: Slots, i: nat)
    requires i <= |ids| == |AllFree(base)|
    ensures MapOk(SlotMap(ids, AllFree(base), i), |base|)
    ensures forall id | id in SlotMap(ids, AllFree(base), i) :: SlotMap(ids, AllFree(base), i)[id] in AllFree(base)[..i]
    decreases i
  {
    var free := AllFree(base);
    MatchedExactly(Empties(base), 0, |base|);
    if i > 0 {
      SlotMapOk(ids, base, i - 1);
      var m := SlotMap(ids, free, i - 1);
      assert free[..i] == free[..i - 1] + [free[i - 1]];
      assert free[i - 1] in free;
      LaterNotBefore(free, i - 1);
    }
  }

  lemma LaterNotBefore(free: seq<nat>, i: nat)
    requires Ascending(free) && i < |free|
    ensures free[i] !in free[..i]
  {
  }

  function Nothing(n: nat): (r: seq<bool>)
    ensures |r| == n && forall i | 0 <= i < n :: !r[i]
  {
    seq(n, _ => false)
  }

  /** What initialising from a compact block comes to. Which short ids fall into an overfull bucket
      of the map is not known. */
  ghost function Init(shortid: nat -> nat, c: Compact, pool: seq<Known>, extra: seq<Known>, crowded: set<nat>): Outcome {
    var n := |c.shortids| + |c.prefilled|;
    if c.headerIsNull || n == 0 || n > MAX_BLOCK_WEIGHT / MIN_SERIALIZABLE_TRANSACTION_WEIGHT then Invalid
    else
      var placed := Placed(NoSlots(n), -1, 0, c.prefilled, |c.shortids|);
      if placed.None? then Invalid
      else if exists i | i in crowded :: i < |c.shortids| then Failure
      else
        PlacedStart(c.prefilled, |c.shortids|);
        var m := Slotting(c, placed.value);
        if |m| != |c.shortids| then Failure
        else Matches(shortid, m, placed.value, pool, extra, c)
  }

  ghost function Matches(shortid: nat -> nat, m: map<nat, nat>, base: Slots, pool: seq<Known>, extra: seq<Known>, c: Compact)
    : (r: Outcome)
    requires |AllFree(base)| == |c.shortids| && m == Slotting(c, base)
    ensures r.Ready? && |r.slots| == |base|
  {
    SlotMapOk(c.shortids, base, |c.shortids|);
    var p := Offers(shortid, m, Progress(base, Nothing(|base|), 0), pool, false);
    var q := Offers(shortid, m, p, extra, true);
    Ready(q.slots, q.count)
  }

  lemma StartSound(c: Compact, base: Slots)
    requires |AllFree(base)| == |c.shortids|
    ensures Sound(Slotting(c, base), base, Progress(base, Nothing(|base|), 0))
  {
    hide SlotMap;
    SlotMapOk(c.shortids, base, |c.shortids|);
    var m := Slotting(c, base);
    MatchedExactly(Empties(base), 0, |base|);
    forall id | id in m ensures !Holds(m, base, id) {
      assert m[id] in AllFree(base);
    }
  }

  /** The count kept is the number of slots filled from transactions at hand; the others among the
      slots of short ids are those still empty. */
  lemma CountExact(shortid: nat -> nat, c: Compact, base: Slots, pool: seq<Known>, extra: seq<Known>)
    requires |AllFree(base)| == |c.shortids|
    ensures var r := Matches(shortid, Slotting(c, base), base, pool, extra, c);
      |r.slots| == |base| && r.count + |AllFree(r.slots)| == |c.shortids|
  {
    hide Sound, SlotMap;
    SlotMapOk(c.shortids, base, |c.shortids|);
    var m := Slotting(c, base);
    StartSound(c, base);
    var start := Progress(base, Nothing(|base|), 0);
    OffersSound(shortid, m, base, start, pool, false);
    var p := Offers(shortid, m, start, pool, false);
    OffersSound(shortid, m, base, p, extra, true);
    SoundCount(m, base, Offers(shortid, m, p, extra, true));
  }

  lemma SoundCount(m: map<nat, nat>, base: Slots, p: Progress)
    requires Sound(m, base, p)
    ensures |p.slots| == |base| && p.count + |AllFree(p.slots)| == |AllFree(base)|
  {
  }

  /** Without short id collisions, every transaction found is the block's own, and the transactions
      still missing, sent in index order, complete the block. */
  lemma Reconstructs(shortid: nat -> nat, c: Compact, base: Slots, pool: seq<Known>, extra: seq<Known>, vtx: seq<Tx>, missing: seq<Tx>)
    requires |AllFree(base)| == |c.shortids| && Right(base, vtx)
    requires NoCollision(shortid, Slotting(c, base), vtx, pool) && NoCollision(shortid, Slotting(c, base), vtx, extra)
    ensures var r := Matches(shortid, Slotting(c, base), base, pool, extra, c);
      && Right(r.slots, vtx)
      && (Answers(missing, 0, vtx, AllFree(r.slots)) ==> FillFrom(r.slots, 0, missing, 0) == Some(vtx))
  {
    hide SlotMap, Right, NoCollision;
    SlotMapOk(c.shortids, base, |c.shortids|);
    var m := Slotting(c, base);
    var start := Progress(base, Nothing(|base|), 0);
    OffersRight(shortid, m, start, pool, false, vtx);
    var p := Offers(shortid, m, start, pool, false);
    OffersRight(shortid, m, p, extra, true, vtx);
    var slots := Offers(shortid, m, p, extra, true).slots;
    if Answers(missing, 0, vtx, AllFree(slots)) {
      FillRebuilds(slots, 0, missing, 0, vtx);
      assert vtx[0..] == vtx;
    }
  }

  // What each slot ends up with

  /** The transactions among ks with a given short id, in order. */
  function Having(shortid: nat -> nat, ks: seq<Known>, id: nat): seq<Tx> {
    if ks == [] then []
    else (if shortid(ks[0].hash) == id then [ks[0].tx] else []) + Having(shortid, ks[1..], id)
  }

  predicate Agree(txs: seq<Tx>) { forall i | 0 <= i < |txs| :: txs[i].witnessHash == txs[0].witnessHash }

  /** What should be in a slot, given the transactions of the pool and the extra ones with its short id: the one
      of the pool, or the first of the extra ones, provided that all agree. */
  function Decided(pool: seq<Tx>, extra: seq<Tx>): Option<Tx> {
    var all := pool + extra;
    if all != [] && |pool| <= 1 && Agree(all) then Some(all[0]) else None
  }

  /** Offers without stopping early. */
  function OfferAll(shortid: nat -> nat, m: map<nat, nat>, p: Progress, ks: seq<Known>, extra: bool): (r: Progress)
    requires MapOk(m, |p.slots|) && |p.have| == |p.slots|
    ensures |r.slots| == |r.have| == |p.slots|
    decreases |ks|
  {
    if ks == [] then p else OfferAll(shortid, m, Offer(shortid, m, p, ks[0], extra), ks[1..], extra)
  }

  /** Stopping early comes to offering only some, and happens only once every short id has its match. */
  lemma {:induction false} OffersPrefix(shortid: nat -> nat, m: map<nat, nat>, p: Progress, ks: seq<Known>, extra: bool) returns (n: nat)
    requires MapOk(m, |p.slots|) && |p.have| == |p.slots|
    ensures n <= |ks| && Offers(shortid, m, p, ks, extra) == OfferAll(shortid, m, p, ks[..n], extra)
    ensures n == |ks| || Offers(shortid, m, p, ks, extra).count == |m|
    decreases |ks|
  {
    hide Offer, MapOk;
    n := 0;
    if ks != [] {
      var q := Offer(shortid, m, p, ks[0], extra);
      if q.count != |m| { n := OffersPrefix(shortid, m, q, ks[1..], extra); }
      n := n + 1;
      assert ks[..n][0] == ks[0] && ks[..n][1..] == ks[1..][..n - 1];
    }
  }

  /** The state of one slot after offers with its short id, told from its state before. */
  ghost predicate SlotAfter(have: bool, tx: Option<Tx>, txs: seq<Tx>, extra: bool, have2: bool, tx2: Option<Tx>) {
    && have2 == (have || txs != [])
    && var all := (if tx.Some? then [tx.value] else []) + txs;
    tx2 == if have && tx.None? then None
           else if all == [] || !(if extra then Agree(all) else |all| == 1) then None
           else Some(all[0])
  }

  lemma {:induction false} OfferAllAt(shortid: nat -> nat, m: map<nat, nat>, p: Progress, ks: seq<Known>, extra: bool, id: nat)
    requires MapOk(m, |p.slots|) && |p.have| == |p.slots| && id in m && (p.slots[m[id]].Some? ==> p.have[m[id]])
    ensures var q, at := OfferAll(shortid, m, p, ks, extra), m[id];
      SlotAfter(p.have[at], p.slots[at], Having(shortid, ks, id), extra, q.have[at], q.slots[at])
    decreases |ks|
  {
    hide MapOk, Offer, SlotAfter, Having;
    var at := InRange(m, |p.slots|, id);
    if ks == [] {
      HavingNone(shortid, id);
      SlotSame(p.have[at], p.slots[at], extra);
    } else {
      var q := Offer(shortid, m, p, ks[0], extra);
      OfferAt(shortid, m, p, ks[0], extra, id);
      OfferAllAt(shortid, m, q, ks[1..], extra, id);
      var r := OfferAll(shortid, m, q, ks[1..], extra);
      HavingSome(shortid, ks, id);
      if shortid(ks[0].hash) == id {
        SlotFirst(p.have[at], p.slots[at], ks[0].tx, Having(shortid, ks[1..], id), extra, q.have[at], q.slots[at], r.have[at], r.slots[at]);
      }
    }
  }

  lemma InRange(m: map<nat, nat>, n: nat, id: nat) returns (at: nat)
    requires MapOk(m, n) && id in m
    ensures at == m[id] && at < n
  {
    at := m[id];
  }

  lemma HavingNone(shortid: nat -> nat, id: nat)
    ensures Having(shortid, [], id) == []
  {
  }

  lemma HavingSome(shortid: nat -> nat, ks: seq<Known>, id: nat)
    requires ks != []
    ensures Having(shortid, ks, id) == (if shortid(ks[0].hash) == id then [ks[0].tx] else []) + Having(shortid, ks[1..], id)
    ensures shortid(ks[0].hash) != id ==> Having(shortid, ks, id) == Having(shortid, ks[1..], id)
  {
  }

  lemma SlotSame(have: bool, tx: Option<Tx>, extra: bool)
    requires tx.Some? ==> have
    ensures SlotAfter(have, tx, [], extra, have, tx)
  {
  }

  /** One offer at one slot. */
  ghost predicate Offered(have: bool, tx: Option<Tx>, x: Tx, extra: bool, have2: bool, tx2: Option<Tx>) {
    && have2
    && tx2 == if !have then Some(x)
              else if tx.Some? && extra && tx.value.witnessHash == x.witnessHash then tx else None
  }

  lemma OfferAt(shortid: nat -> nat, m: map<nat, nat>, p: Progress, k: Known, extra: bool, id: nat)
    requires MapOk(m, |p.slots|) && |p.have| == |p.slots| && id in m && (p.slots[m[id]].Some? ==> p.have[m[id]])
    ensures var q, at := Offer(shortid, m, p, k, extra), m[id];
      && (q.slots[at].Some? ==> q.have[at])
      && if shortid(k.hash) == id then Offered(p.have[at], p.slots[at], k.tx, extra, q.have[at], q.slots[at])
         else q.have[at] == p.have[at] && q.slots[at] == p.slots[at]
  {
  }

  lemma SlotFirst(have: bool, tx: Option<Tx>, x: Tx, rest: seq<Tx>, extra: bool, have2: bool, tx2: Option<Tx>, have3: bool, tx3: Option<Tx>)
    requires (tx.Some? ==> have) && Offered(have, tx, x, extra, have2, tx2) && SlotAfter(have2, tx2, rest, extra, have3, tx3)
    ensures SlotAfter(have, tx, [x] + rest, extra, have3, tx3)
  {
    var before := if tx.Some? then [tx.value] else [];
    var all, later := before + ([x] + rest), (if tx2.Some? then [tx2.value] else []) + rest;
    if tx.None? {
      if !have { assert all == later; }
    } else {
      assert all[0] == tx.value && all[1] == x;
      forall i | 0 <= i < |rest| ensures all[i + 2] == rest[i] {
      }
      if tx2.Some? {
        assert later[0] == tx.value;
        forall i | 0 <= i < |rest| ensures later[i + 1] == rest[i] {
        }
        AgreeInsert(tx.value, x, rest);
        assert all == [tx.value] + ([x] + rest) && later == [tx.value] + rest;
      } else if extra {
        assert all[1].witnessHash != all[0].witnessHash;
      }
    }
  }

  lemma AgreeInsert(a: Tx, x: Tx, rest: seq<Tx>)
    requires x.witnessHash == a.witnessHash
    ensures Agree([a] + ([x] + rest)) <==> Agree([a] + rest)
  {
    var all, fewer := [a] + ([x] + rest), [a] + rest;
    assert all[2..] == rest && fewer[1..] == rest;
    if Agree(fewer) {
      forall i | 0 <= i < |all| ensures all[i].witnessHash == all[0].witnessHash {
        if i >= 2 { assert fewer[i - 1].witnessHash == fewer[0].witnessHash; }
      }
    }
    if Agree(all) {
      forall i | 0 <= i < |fewer| ensures fewer[i].witnessHash == fewer[0].witnessHash {
        if i >= 1 { assert all[i + 1].witnessHash == all[0].witnessHash; }
      }
    }
  }

  /** From an empty slot, the pool's offers and then the extra ones decide it. */
  lemma DecidedBoth(pool: seq<Tx>, extra: seq<Tx>, have: bool, tx: Option<Tx>, have2: bool, tx2: Option<Tx>)
    requires SlotAfter(false, None, pool, false, have, tx) && SlotAfter(have, tx, extra, true, have2, tx2)
    ensures tx == Decided(pool, []) && tx2 == Decided(pool, extra)
  {
    assert [] + pool == pool && pool + [] == pool && [] + extra == extra;
    if pool == [] { assert pool + extra == extra; }
    if |pool| == 1 { assert pool == [pool[0]]; }
  }

  /** Offered transactions with an id stay in front as more are offered. */
  lemma {:induction false} HavingPrefix(shortid: nat -> nat, ks: seq<Known>, n: nat, id: nat)
    requires n <= |ks|
    ensures Having(shortid, ks[..n], id) <= Having(shortid, ks, id)
    decreases n
  {
    if n > 0 {
      HavingPrefix(shortid, ks[1..], n - 1, id);
      assert ks[..n][1..] == ks[1..][..n - 1] && ks[..n][0] == ks[0];
    }
  }

  /** Once all short ids have their match, every slot is filled. */
  lemma AllMatched(c: Compact, base: Slots, p: Progress, id: nat)
    requires |AllFree(base)| == |c.shortids| && Sound(Slotting(c, base), base, p)
    requires p.count == |Slotting(c, base)| == |c.shortids| && id in Slotting(c, base)
    ensures p.slots[Slotting(c, base)[id]].Some?
  {
    hide SlotMap;
    assert AllFree(p.slots) == [];
    MatchedExactly(Empties(p.slots), 0, |p.slots|);
    var at := Slotting(c, base)[id];
    assert at !in AllFree(p.slots);
  }

  /** The slot of a short id holds the transaction decided on; it may hold one although none was, but only if a scan
      stopped because every slot was filled. Whatever it holds is the first at hand. */
  lemma MatchesExactly(shortid: nat -> nat, c: Compact, base: Slots, pool: seq<Known>, extra: seq<Known>, id: nat)
    requires |AllFree(base)| == |c.shortids| == |Slotting(c, base)| && id in Slotting(c, base)
    ensures var m := Slotting(c, base);
      var r := Matches(shortid, m, base, pool, extra, c);
      var inPool, others := Having(shortid, pool, id), Having(shortid, extra, id);
      && MapOk(m, |base|) && m[id] < |r.slots|
      && var slot := r.slots[m[id]];
      && (Decided(inPool, others).Some? ==> slot == Decided(inPool, others))
      && (slot.Some? ==> inPool + others != [] && slot.value == (inPool + others)[0])
      && (slot == Decided(inPool, others) || r.count == |c.shortids|
          || Offers(shortid, m, Progress(base, Nothing(|base|), 0), pool, false).count == |c.shortids|)
  {
    hide Sound, SlotMap, Offers, OfferAll, SlotAfter, Having, Decided;
    SlotMapOk(c.shortids, base, |c.shortids|);
    var m := Slotting(c, base);
    StartSound(c, base);
    var start := Progress(base, Nothing(|base|), 0);
    SlotStart(c, base, id);
    OffersSound(shortid, m, base, start, pool, false);
    var n := OffersPrefix(shortid, m, start, pool, false);
    OfferAllAt(shortid, m, start, pool[..n], false, id);
    var p := Offers(shortid, m, start, pool, false);
    SoundHad(m, base, p, id);
    OffersSound(shortid, m, base, p, extra, true);
    var k := OffersPrefix(shortid, m, p, extra, true);
    OfferAllAt(shortid, m, p, extra[..k], true, id);
    var q, at := Offers(shortid, m, p, extra, true), m[id];
    SoundHad(m, base, q, id);
    var a, b := Having(shortid, pool[..n], id), Having(shortid, extra[..k], id);
    DecidedBoth(a, b, p.have[at], p.slots[at], q.have[at], q.slots[at]);
    if n < |pool| { AllMatched(c, base, p, id); }
    if k < |extra| { AllMatched(c, base, q, id); }
    HavingPrefix(shortid, pool, n, id);
    HavingPrefix(shortid, extra, k, id);
    assert pool[..|pool|] == pool && extra[..|extra|] == extra;
    DecidedMore(a, b, Having(shortid, pool, id), Having(shortid, extra, id), n == |pool|, k == |extra|);
  }

  lemma SlotStart(c: Compact, base: Slots, id: nat)
    requires |AllFree(base)| == |c.shortids| && id in Slotting(c, base)
    ensures Slotting(c, base)[id] < |base| && base[Slotting(c, base)[id]].None?
  {
    hide SlotMap;
    SlotMapOk(c.shortids, base, |c.shortids|);
    MatchedExactly(Empties(base), 0, |base|);
    assert Slotting(c, base)[id] in AllFree(base);
  }

  lemma SoundHad(m: map<nat, nat>, base: Slots, p: Progress, id: nat)
    requires Sound(m, base, p) && id in m
    ensures |p.slots| == |p.have| == |base| && MapOk(m, |base|) && m[id] < |base| && (p.slots[m[id]].Some? ==> p.have[m[id]])
  {
    assert Holds(m, p.slots, id) ==> Had(m, p, id);
  }

  /** What was decided on part of the offers, if the rest was cut off only after the slot was filled. */
  lemma DecidedMore(a: seq<Tx>, b: seq<Tx>, pool: seq<Tx>, extra: seq<Tx>, allPool: bool, allExtra: bool)
    requires a <= pool && b <= extra && (allPool ==> a == pool) && (allExtra ==> b == extra)
    requires !allPool ==> Decided(a, []).Some?
    requires !allExtra ==> Decided(a, b).Some?
    ensures Decided(pool, extra).Some? ==> Decided(a, b) == Decided(pool, extra)
    ensures Decided(a, b).Some? ==> pool + extra != [] && Decided(a, b).value == (pool + extra)[0]
    ensures allPool && allExtra ==> Decided(a, b) == Decided(pool, extra)
  {
    var all, part := pool + extra, a + b;
    assert a + [] == a;
    if Decided(pool, extra).Some? {
      if !allPool { assert a == pool; }
      assert part == all[..|part|];
      forall i | 0 <= i < |part| ensures part[i] == all[i] {
      }
    }
    if Decided(a, b).Some? {
      if a == [] { assert allPool; assert part[0] == b[0] && all[0] == extra[0]; } else { assert part[0] == a[0] && all[0] == pool[0]; }
    }
  }

  // The sender

  /** Announces a block: its first transaction whole, the others by short id. */
  function Announce(shortid: nat -> nat, vtx: seq<Tx>, byWitness: bool): Compact
    requires vtx != []
  {
    Compact(false, seq<nat>(|vtx| - 1, i requires 0 <= i < |vtx| - 1 => shortid(HashOf(vtx[i + 1], byWitness))), [Prefilled(0, vtx[0])])
  }

  function HashOf(tx: Tx, byWitness: bool): nat { if byWitness then tx.witnessHash else tx.hash }

  ghost function FirstOnly(vtx: seq<Tx>): Slots
    requires vtx != []
  {
    [Some(vtx[0])] + NoSlots(|vtx| - 1)
  }

  /** Of a block announced, the receiver has the first transaction in place; slot j + 1 is for short
      id j. */
  lemma AnnouncePlaced(shortid: nat -> nat, vtx: seq<Tx>, byWitness: bool)
    requires vtx != [] && !vtx[0].isNull
    ensures var c := Announce(shortid, vtx, byWitness);
      && Placed(NoSlots(|vtx|), -1, 0, c.prefilled, |c.shortids|) == Some(FirstOnly(vtx))
      && Right(FirstOnly(vtx), vtx)
      && AllFree(FirstOnly(vtx)) == seq(|vtx| - 1, j => j + 1)
  {
    var c := Announce(shortid, vtx, byWitness);
    assert NoSlots(|vtx|)[0 := Some(vtx[0])] == FirstOnly(vtx);
    assert Placed(FirstOnly(vtx), 0, 1, c.prefilled, |c.shortids|) == Some(FirstOnly(vtx));
    FreeRun(FirstOnly(vtx), 1);
  }

  lemma {:induction false} FreeRun(slots: Slots, lo: nat)
    requires lo <= |slots| && EmptyFrom(slots, lo)
    ensures Free(slots, lo, |slots|) == seq(|slots| - lo, j => lo + j)
    decreases |slots| - lo
  {
    if lo < |slots| { FreeRun(slots, lo + 1); }
  }

  /** No transaction at hand shares a short id with another transaction of the block. */
  ghost predicate Unambiguous(shortid: nat -> nat, vtx: seq<Tx>, byWitness: bool, ks: seq<Known>) {
    forall i, j | 0 <= i < |ks| && 1 <= j < |vtx| && shortid(ks[i].hash) == shortid(HashOf(vtx[j], byWitness)) :: ks[i].tx == vtx[j]
  }

  lemma AnnounceGenuine(shortid: nat -> nat, vtx: seq<Tx>, byWitness: bool, ks: seq<Known>)
    requires vtx != [] && !vtx[0].isNull && Unambiguous(shortid, vtx, byWitness, ks)
    requires DistinctIds(Announce(shortid, vtx, byWitness).shortids, |vtx| - 1)
    ensures var c := Announce(shortid, vtx, byWitness);
      && |AllFree(FirstOnly(vtx))| == |c.shortids|
      && NoCollision(shortid, Slotting(c, FirstOnly(vtx)), vtx, ks)
  {
    var c := Announce(shortid, vtx, byWitness);
    AnnouncePlaced(shortid, vtx, byWitness);
    var m, free := Slotting(c, FirstOnly(vtx)), AllFree(FirstOnly(vtx));
    forall i | 0 <= i < |ks| ensures Genuine(shortid, m, vtx, ks[i]) {
      var id := shortid(ks[i].hash);
      SlotMapKeys(c.shortids, free, |c.shortids|, id);
      if id in m {
        var j :| 0 <= j < |c.shortids| && c.shortids[j] == id;
        SlotMapAt(c.shortids, free, |c.shortids|, j);
        assert m[id] == j + 1;
      }
    }
  }

  /** Some transaction at hand has the short id of the block's transaction j. */
  ghost predicate AtHand(shortid: nat -> nat, vtx: seq<Tx>, byWitness: bool, ks: seq<Known>, j: nat)
    requires j < |vtx|
  {
    exists i :: 0 <= i < |ks| && shortid(ks[i].hash) == shortid(HashOf(vtx[j], byWitness))
  }

  ghost predicate AllDiffer(ks: seq<Known>) {
    forall i, j | 0 <= i < j < |ks| :: ks[i].tx != ks[j].tx
  }

  lemma {:induction false} HavingExactly(shortid: nat -> nat, ks: seq<Known>, id: nat)
    ensures Having(shortid, ks, id) != [] <==> exists i :: 0 <= i < |ks| && shortid(ks[i].hash) == id
    ensures forall x | x in Having(shortid, ks, id) :: exists i :: 0 <= i < |ks| && shortid(ks[i].hash) == id && ks[i].tx == x
    decreases |ks|
  {
    if ks != [] {
      var rest := ks[1..];
      HavingExactly(shortid, rest, id);
      forall i | 0 <= i < |rest| ensures rest[i] == ks[i + 1] {
      }
      if exists i :: 0 <= i < |ks| && shortid(ks[i].hash) == id {
        var i :| 0 <= i < |ks| && shortid(ks[i].hash) == id;
        if i > 0 { assert shortid(rest[i - 1].hash) == id; }
      }
      forall x | x in Having(shortid, ks, id) ensures exists i :: 0 <= i < |ks| && shortid(ks[i].hash) == id && ks[i].tx == x {
        if x in Having(shortid, rest, id) {
          var i :| 0 <= i < |rest| && shortid(rest[i].hash) == id && rest[i].tx == x;
          assert ks[i + 1].tx == x;
        } else {
          assert ks[0].tx == x;
        }
      }
    }
  }

  /** Among different transactions that, with this short id, can only be x, there is at most one. */
  lemma {:induction false} HavingOne(shortid: nat -> nat, ks: seq<Known>, id: nat, x: Tx)
    requires AllDiffer(ks) && forall i | 0 <= i < |ks| && shortid(ks[i].hash) == id :: ks[i].tx == x
    ensures |Having(shortid, ks, id)| <= 1
    decreases |ks|
  {
    if ks != [] {
      var rest := ks[1..];
      HavingOne(shortid, rest, id, x);
      if shortid(ks[0].hash) == id {
        HavingExactly(shortid, rest, id);
        forall i | 0 <= i < |rest| ensures shortid(rest[i].hash) != id {
          assert rest[i] == ks[i + 1] && ks[0].tx != ks[i + 1].tx;
        }
      }
    }
  }

  /** Without short id collisions a slot is decided exactly if its transaction is at hand, and then on that. */
  lemma DecidedGenuine(shortid: nat -> nat, vtx: seq<Tx>, byWitness: bool, pool: seq<Known>, extra: seq<Known>, j: nat)
    requires 1 <= j < |vtx| && AllDiffer(pool)
    requires Unambiguous(shortid, vtx, byWitness, pool) && Unambiguous(shortid, vtx, byWitness, extra)
    ensures var id := shortid(HashOf(vtx[j], byWitness));
      var inPool, others := Having(shortid, pool, id), Having(shortid, extra, id);
      && (AtHand(shortid, vtx, byWitness, pool + extra, j) <==> inPool + others != [])
      && (inPool + others != [] ==> Decided(inPool, others) == Some(vtx[j]))
  {
    var id := shortid(HashOf(vtx[j], byWitness));
    var inPool, others := Having(shortid, pool, id), Having(shortid, extra, id);
    HavingExactly(shortid, pool, id);
    HavingExactly(shortid, extra, id);
    HavingOne(shortid, pool, id, vtx[j]);
    var all, known := inPool + others, pool + extra;
    forall i | 0 <= i < |all| ensures all[i] == vtx[j] {
      if i < |inPool| { assert all[i] in inPool; } else { assert all[i] in others; }
    }
    forall i | 0 <= i < |pool| ensures known[i] == pool[i] {
    }
    forall i | 0 <= i < |extra| ensures known[|pool| + i] == extra[i] {
    }
    if all != [] {
      if inPool != [] {
        var i :| 0 <= i < |pool| && shortid(pool[i].hash) == id;
        assert shortid(known[i].hash) == id;
      } else {
        var i :| 0 <= i < |extra| && shortid(extra[i].hash) == id;
        assert shortid(known[|pool| + i].hash) == id;
      }
    }
  }

  /** What a receiver has to ask for: exactly the transactions none at hand has the short id of. */
  ghost predicate AsksFor(shortid: nat -> nat, vtx: seq<Tx>, byWitness: bool, ks: seq<Known>, slots: Slots) {
    && |slots| == |vtx|
    && forall j | 1 <= j < |vtx| :: slots[j].None? <==> !AtHand(shortid, vtx, byWitness, ks, j)
  }

  lemma AnnouncedSlots(shortid: nat -> nat, vtx: seq<Tx>, byWitness: bool, pool: seq<Known>, extra: seq<Known>)
    requires vtx != [] && !vtx[0].isNull && AllDiffer(pool)
    requires DistinctIds(Announce(shortid, vtx, byWitness).shortids, |vtx| - 1)
    requires Unambiguous(shortid, vtx, byWitness, pool) && Unambiguous(shortid, vtx, byWitness, extra)
    ensures var c, base := Announce(shortid, vtx, byWitness), FirstOnly(vtx);
      && |AllFree(base)| == |c.shortids|
      && AsksFor(shortid, vtx, byWitness, pool + extra, Matches(shortid, Slotting(c, base), base, pool, extra, c).slots)
  {
    hide SlotMap, Placed, Unambiguous, DistinctIds, Matches, Having, Decided, AtHand, AllDiffer;
    var c, base := Announce(shortid, vtx, byWitness), FirstOnly(vtx);
    AnnouncePlaced(shortid, vtx, byWitness);
    var m, free := Slotting(c, base), AllFree(base);
    SlotMapSize(c.shortids, free, |c.shortids|);
    CountExact(shortid, c, base, pool, extra);
    var r := Matches(shortid, m, base, pool, extra, c);
    forall j | 1 <= j < |vtx| ensures r.slots[j].None? <==> !AtHand(shortid, vtx, byWitness, pool + extra, j) {
      var id := shortid(HashOf(vtx[j], byWitness));
      assert c.shortids[j - 1] == id;
      SlotMapKeys(c.shortids, free, |c.shortids|, id);
      SlotMapAt(c.shortids, free, |c.shortids|, j - 1);
      MatchesExactly(shortid, c, base, pool, extra, id);
      DecidedGenuine(shortid, vtx, byWitness, pool, extra, j);
    }
  }

  /** End to end: a block announced by its compact form, received without short id collisions, is
      rebuilt from the transactions at hand and the missing ones, which are exactly those not at hand. */
  lemma BlockArrives(shortid: nat -> nat, vtx: seq<Tx>, byWitness: bool, pool: seq<Known>, extra: seq<Known>, missing: seq<Tx>)
    requires 0 < |vtx| <= MAX_INDEX && !vtx[0].isNull
    requires DistinctIds(Announce(shortid, vtx, byWitness).shortids, |vtx| - 1)
    requires Unambiguous(shortid, vtx, byWitness, pool) && Unambiguous(shortid, vtx, byWitness, extra)
    ensures var r := Init(shortid, Announce(shortid, vtx, byWitness), pool, extra, {});
      && r.Ready? && Right(r.slots, vtx) && r.count + |AllFree(r.slots)| == |vtx| - 1
      && (AllDiffer(pool) ==> AsksFor(shortid, vtx, byWitness, pool + extra, r.slots))
      && (Answers(missing, 0, vtx, AllFree(r.slots)) ==> FillFrom(r.slots, 0, missing, 0) == Some(vtx))
  {
    hide SlotMap, Placed, Right, NoCollision, Unambiguous, DistinctIds, Free, Answers, AsksFor, AllDiffer, Matches;
    var c := Announce(shortid, vtx, byWitness);
    AnnouncePlaced(shortid, vtx, byWitness);
    AnnounceGenuine(shortid, vtx, byWitness, pool);
    AnnounceGenuine(shortid, vtx, byWitness, extra);
    SlotMapSize(c.shortids, AllFree(FirstOnly(vtx)), |c.shortids|);
    CountExact(shortid, c, FirstOnly(vtx), pool, extra);
    Reconstructs(shortid, c, FirstOnly(vtx), pool, extra, vtx, missing);
    if AllDiffer(pool) { AnnouncedSlots(shortid, vtx, byWitness, pool, extra); }
  }
}
