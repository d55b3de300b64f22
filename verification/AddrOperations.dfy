/** The public operations of the address manager over its tables, and the
    proof that every run of them keeps the tables consistent. */
module AddrOperations {
  import opened AddrTables
  import opened Powers

  // Moving entries between the two tables

  /** Takes an entry out of its tried position; it is counted nowhere. */
  function Demote(t: Tables, s: Slot, id: int): Tables
    requires id in t.info
  {
    t.(info := t.info[id := t.info[id].(inTried := false)], triedAt := t.triedAt - {s}, nTried := t.nTried - 1)
  }

  function Promote(t: Tables, s: Slot, id: int): Tables
    requires id in t.info
  {
    t.(info := t.info[id := t.info[id].(inTried := true)], triedAt := t.triedAt[s := id], nTried := t.nTried + 1)
  }

  lemma DemoteTables(p: Placement, info: map<int, Info>, newAt: map<Slot, int>, triedAt: map<Slot, int>, s: Slot, id: int, limbo: set<int>)
    requires NewOk(p, info, newAt) && TriedOk(p, info, triedAt) && Holds(triedAt, s, id)
    requires RefOk(info, newAt, limbo)
    ensures id in info && info[id].inTried && id !in limbo
    ensures var info2 := info[id := info[id].(inTried := false)];
      NewOk(p, info2, newAt) && TriedOk(p, info2, triedAt - {s})
  {
    assert MaySitInTried(p, info, s, id);
    var info2 := info[id := info[id].(inTried := false)];
    var triedAt2 := triedAt - {s};
    forall q | q in newAt ensures MaySitInNew(p, info2, q, newAt[q]) {
      assert MaySitInNew(p, info, q, newAt[q]);
    }
    forall q | q in triedAt2 ensures MaySitInTried(p, info2, q, triedAt2[q]) {
      assert MaySitInTried(p, info, q, triedAt[q]);
    }
  }

  lemma DemoteCounts(p: Placement, info: map<int, Info>, newAt: map<Slot, int>, id: int, limbo: set<int>)
    requires RefOk(info, newAt, limbo) && TimesOk(info) && NewOk(p, info, newAt) && IsTried(info, id)
    ensures var info2 := info[id := info[id].(inTried := false)];
      && RefOk(info2, newAt, limbo + {id}) && TimesOk(info2)
      && |TriedIds(info2)| == |TriedIds(info)| - 1
      && |NewIds(info2)| == |NewIds(info)| + 1
  {
    var info2 := info[id := info[id].(inTried := false)];
    assert id in TriedIds(info);
    assert TriedIds(info2) == TriedIds(info) - {id};
    assert NewIds(info2) == NewIds(info) + {id};
    forall q | q in newAt ensures !Holds(newAt, q, id) {
      assert MaySitInNew(p, info, q, newAt[q]);
    }
    assert RefSlots(newAt, id) == {};
  }

  lemma DemoteKeeps(p: Placement, t: Tables, s: Slot, id: int, limbo: set<int>, uncounted: nat)
    requires Between(p, t, limbo, uncounted) && Holds(t.triedAt, s, id)
    ensures id in t.info && id !in limbo && IsTried(t.info, id)
    ensures Between(p, Demote(t, s, id), limbo + {id}, uncounted + 1)
  {
    hide AddrOk, RandomOk, NewOk, TriedOk, RefOk, TimesOk, NewIds, TriedIds;
    DemoteTables(p, t.info, t.newAt, t.triedAt, s, id, limbo);
    DemoteCounts(p, t.info, t.newAt, id, limbo);
    TweakIndexes(t.idCount, t.info, t.addrId, t.random, id, t.info[id].(inTried := false));
  }

  lemma PromoteTables(p: Placement, info: map<int, Info>, newAt: map<Slot, int>, triedAt: map<Slot, int>, limbo: set<int>, id: int)
    requires NewOk(p, info, newAt) && TriedOk(p, info, triedAt) && RefOk(info, newAt, limbo) && id in limbo
    requires p.triedSlot(info[id].addr.service) !in triedAt
    ensures var info2 := info[id := info[id].(inTried := true)];
      NewOk(p, info2, newAt) && TriedOk(p, info2, triedAt[p.triedSlot(info[id].addr.service) := id])
  {
    var info2 := info[id := info[id].(inTried := true)];
    var triedAt2 := triedAt[p.triedSlot(info[id].addr.service) := id];
    assert RefSlots(newAt, id) == {};
    forall q | q in newAt ensures MaySitInNew(p, info2, q, newAt[q]) {
      assert MaySitInNew(p, info, q, newAt[q]);
      assert q !in RefSlots(newAt, id);
    }
    forall q | q in triedAt2 ensures MaySitInTried(p, info2, q, triedAt2[q]) {
      assert q in triedAt ==> MaySitInTried(p, info, q, triedAt[q]);
    }
  }

  lemma PromoteCounts(info: map<int, Info>, newAt: map<Slot, int>, limbo: set<int>, id: int)
    requires RefOk(info, newAt, limbo) && TimesOk(info) && id in limbo && info[id].lastSuccess > 0
    ensures var info2 := info[id := info[id].(inTried := true)];
      && RefOk(info2, newAt, limbo - {id}) && TimesOk(info2)
      && |TriedIds(info2)| == |TriedIds(info)| + 1
      && |NewIds(info2)| == |NewIds(info)| - 1
  {
    var info2 := info[id := info[id].(inTried := true)];
    assert id in NewIds(info);
    assert TriedIds(info2) == TriedIds(info) + {id};
    assert NewIds(info2) == NewIds(info) - {id};
  }

  lemma PromoteKeeps(p: Placement, t: Tables, id: int, limbo: set<int>, uncounted: nat)
    requires Between(p, t, limbo, uncounted) && id in limbo && id in t.info && uncounted > 0
    requires t.info[id].lastSuccess > 0 && p.triedSlot(t.info[id].addr.service) !in t.triedAt
    ensures Between(p, Promote(t, p.triedSlot(t.info[id].addr.service), id), limbo - {id}, uncounted - 1)
  {
    hide AddrOk, RandomOk, NewOk, TriedOk, RefOk, TimesOk, NewIds, TriedIds;
    PromoteTables(p, t.info, t.newAt, t.triedAt, limbo, id);
    PromoteCounts(t.info, t.newAt, limbo, id);
    TweakIndexes(t.idCount, t.info, t.addrId, t.random, id, t.info[id].(inTried := true));
  }

  /** The tried entry at s is moved to the new table, deleting whatever is in its place there. */
  function Evict(p: Placement, t: Tables, s: Slot, ghost limbo: set<int>, ghost uncounted: nat): Tables
    requires p.InRange() && Between(p, t, limbo, uncounted) && s in t.triedAt
  {
    hide AddrOk, RandomOk, NewOk, TriedOk, TimesOk, SwapRandom, ClearNew;
    var id := t.triedAt[s];
    DemoteKeeps(p, t, s, id, limbo, uncounted);
    var u := Demote(t, s, id);
    var q := p.NewSlot(u.info[id].addr.service, u.info[id].source);
    ClearNewKeeps(p, u, q, limbo + {id}, uncounted + 1);
    var v := ClearNew(u, q);
    v.(info := v.info[id := v.info[id].(refCount := 1)], newAt := v.newAt[q := id], nNew := v.nNew + 1)
  }

  /** Every entry of keep survives, with the same address, times and source. */
  ghost predicate Survive(info: map<int, Info>, info2: map<int, Info>, keep: set<int>) {
    forall k | k in keep :: k in info && k in info2 && info2[k] == info[k].(randomPos := info2[k].randomPos)
  }

  lemma LinkRestored(t: Tables, s: Slot, id: int)
    requires id in t.info && t.info[id].refCount == 0
    ensures Link(t, s, id) == t.(info := t.info[id := t.info[id].(refCount := 1)], newAt := t.newAt[s := id])
  {
  }

  lemma LimboKept(info: map<int, Info>, newAt: map<Slot, int>, info2: map<int, Info>, limbo: set<int>, s: Slot)
    requires RefOk(info, newAt, limbo)
    requires KeptBut(info, info2, if s in newAt then {newAt[s]} else {})
    ensures Survive(info, info2, limbo)
  {
    forall k | k in limbo ensures k in info2 && info2[k] == info[k].(randomPos := info2[k].randomPos) {
      assert RefSlots(newAt, k) == {};
      assert s !in RefSlots(newAt, k);
    }
  }

  lemma EvictKeeps(p: Placement, t: Tables, s: Slot, limbo: set<int>, uncounted: nat)
    requires p.InRange() && Between(p, t, limbo, uncounted) && s in t.triedAt
    ensures var u := Evict(p, t, s, limbo, uncounted);
      Between(p, u, limbo, uncounted) && u.triedAt == t.triedAt - {s} && Survive(t.info, u.info, limbo)
  {
    hide AddrOk, RandomOk, NewOk, TriedOk, RefOk, TimesOk, NewIds, TriedIds, SwapRandom, ClearNew, Link, KeptBut;
    var id := t.triedAt[s];
    DemoteKeeps(p, t, s, id, limbo, uncounted);
    var u := Demote(t, s, id);
    var q := p.NewSlot(u.info[id].addr.service, u.info[id].source);
    ClearNewKeeps(p, u, q, limbo + {id}, uncounted + 1);
    LimboKept(u.info, u.newAt, ClearNew(u, q).info, limbo + {id}, q);
    var v := ClearNew(u, q);
    LimboFacts(v, id, limbo + {id});
    LimboCount(v.info, v.newAt, limbo + {id}, id);
    LinkRestored(v, q, id);
    LinkKeeps(p, v, q, id, limbo + {id}, uncounted + 1);
    assert limbo + {id} - {id} == limbo;
  }

  lemma LimboCount(info: map<int, Info>, newAt: map<Slot, int>, limbo: set<int>, id: int)
    requires RefOk(info, newAt, limbo) && id in limbo
    ensures IsNew(info, id) && info[id].refCount == 0
  {
  }

  /** Takes an untried entry out of every new bucket and enters it at its tried position. */
  function MakeTried(p: Placement, t: Tables, id: int): Tables
    requires p.InRange() && Consistent(p, t) && IsNew(t.info, id)
  {
    hide AddrOk, RandomOk, NewOk, TriedOk, RefOk, TimesOk, SwapRandom, ClearNew, Evict;
    UnlinkKeeps(p, t, id);
    var u := Unlink(t, id).(nNew := t.nNew - 1);
    var s := p.triedSlot(t.info[id].addr.service);
    EvictSurvives(p, u, s, id);
    var v := if s in u.triedAt then Evict(p, u, s, {id}, 1) else u;
    Promote(v, s, id)
  }

  lemma UnlinkKeeps(p: Placement, t: Tables, id: int)
    requires Consistent(p, t) && IsNew(t.info, id)
    ensures Between(p, Unlink(t, id).(nNew := t.nNew - 1), {id}, 1)
    ensures Unlink(t, id).info == t.info[id := t.info[id].(refCount := 0)]
  {
    hide AddrOk, RandomOk, NewOk, TriedOk, TimesOk, NewIds, TriedIds, RefSlots;
    UnlinkSome(p, t, RefSlots(t.newAt, id), id, {}, 0);
    assert {} + {id} == {id};
  }

  lemma EvictSurvives(p: Placement, u: Tables, s: Slot, id: int)
    requires p.InRange() && Between(p, u, {id}, 1)
    ensures s in u.triedAt ==> var v := Evict(p, u, s, {id}, 1);
      Between(p, v, {id}, 1) && v.triedAt == u.triedAt - {s} && Survive(u.info, v.info, {id})
    ensures id in u.info
  {
    hide AddrOk, RandomOk, NewOk, TriedOk, TimesOk, NewIds, TriedIds, Evict;
    if s in u.triedAt { EvictKeeps(p, u, s, {id}, 1); }
  }

  lemma MakeTriedKeeps(p: Placement, t: Tables, id: int)
    requires p.InRange() && Consistent(p, t) && IsNew(t.info, id) && t.info[id].lastSuccess > 0
    ensures Consistent(p, MakeTried(p, t, id))
    ensures IsTried(MakeTried(p, t, id).info, id)
  {
    hide AddrOk, RandomOk, NewOk, TriedOk, RefOk, TimesOk, NewIds, TriedIds, SwapRandom, ClearNew, Evict;
    UnlinkKeeps(p, t, id);
    var u := Unlink(t, id).(nNew := t.nNew - 1);
    var s := p.triedSlot(t.info[id].addr.service);
    EvictSurvives(p, u, s, id);
    var v := if s in u.triedAt then Evict(p, u, s, {id}, 1) else u;
    PromoteKeeps(p, v, id, {id}, 1);
    assert {id} - {id} == {};
  }

  // Good

  /** The id listed for a service, if the entry has the same port too. */
  function Lookup(t: Tables, s: Service): (id: int)
    ensures id != -1 ==> id in t.info && t.info[id].addr.service == s
  {
    if s.ip in t.addrId && t.addrId[s.ip] in t.info && t.info[t.addrId[s.ip]].addr.service == s
    then t.addrId[s.ip] else -1
  }

  function SetInfo(t: Tables, id: int, x: Info): Tables {
    t.(info := t.info[id := x])
  }

  function Succeeded(x: Info, time: int): Info {
    x.(lastSuccess := time, lastTry := time, attempts := 0)
  }

  function Good(p: Placement, t: Tables, s: Service, time: int): Tables
    requires p.InRange() && Consistent(p, t) && time > 0
  {
    var t1 := t.(lastGood := time);
    var id := Lookup(t, s);
    if id == -1 then t1
    else
      hide AddrOk, RandomOk, NewOk, TriedOk, TimesOk, RefOk;
      var x := Succeeded(t.info[id], time);
      TweakKeeps(p, t1, id, x, {}, 0);
      var t2 := SetInfo(t1, id, x);
      if x.inTried then t2
      else if RefSlots(t2.newAt, id) == {} then t2
      else MakeTried(p, t2, id)
  }

  /** The exit for an untried entry found in no bucket is never taken. */
  lemma BucketFound(p: Placement, t: Tables, id: int)
    requires Consistent(p, t) && IsNew(t.info, id)
    ensures exists b :: 0 <= b < NEW_BUCKET_COUNT && Holds(t.newAt, Slot(b, p.newPos(t.info[id].addr.service, b)), id)
  {
    assert RefSlots(t.newAt, id) != {};
    var s :| s in RefSlots(t.newAt, id);
    assert MaySitInNew(p, t.info, s, t.newAt[s]);
    assert s == Slot(s.bucket, p.newPos(t.info[id].addr.service, s.bucket));
  }

  lemma HasRefs(p: Placement, t: Tables, id: int)
    requires Consistent(p, t) && IsNew(t.info, id)
    ensures RefSlots(t.newAt, id) != {}
  {
  }

  lemma GoodKeeps(p: Placement, t: Tables, s: Service, time: int)
    requires p.InRange() && Consistent(p, t) && time > 0
    ensures Consistent(p, Good(p, t, s, time))
    ensures var id := Lookup(t, s); id != -1 ==> IsTried(Good(p, t, s, time).info, id)
  {
    hide AddrOk, RandomOk, NewOk, TriedOk, TimesOk, RefOk, NewIds, TriedIds, MakeTried;
    var id := Lookup(t, s);
    if id != -1 {
      var t1, x := t.(lastGood := time), Succeeded(t.info[id], time);
      TweakKeeps(p, t1, id, x, {}, 0);
      if !x.inTried {
        var t2 := SetInfo(t1, id, x);
        HasRefs(p, t2, id);
        MakeTriedKeeps(p, t2, id);
      }
    }
  }

  // Add

  function Max(a: int, b: int): int { if a >= b then a else b }

  /** A known entry after hearing of it again: fresher time, more services. */
  function Refreshed(x: Info, addr: Address, penalty: int, now: int): Info {
    var interval := if now - addr.time < 24 * 60 * 60 then 60 * 60 else 24 * 60 * 60;
    var time := if addr.time != 0 && (x.addr.time == 0 || x.addr.time < addr.time - interval - penalty)
                then Max(0, addr.time - penalty) else x.addr.time;
    x.(addr := x.addr.(time := time, services := x.addr.services + addr.services))
  }

  /** Whether a known entry gets another reference; draw is the random number. */
  predicate WantsReference(x: Info, addr: Address, draw: nat) {
    && addr.time != 0
    && (x.addr.time == 0 || addr.time > x.addr.time)
    && !x.inTried
    && x.refCount != NEW_BUCKETS_PER_ADDRESS
    && (x.refCount <= 0 || draw % Pow2(x.refCount) == 0)
  }

  /** Whether entry id may take the new position s. */
  predicate MayTake(t: Tables, s: Slot, id: int, now: int)
    requires s in t.newAt ==> t.newAt[s] in t.info
    requires id in t.info
  {
    s !in t.newAt || t.info[t.newAt[s]].IsTerrible(now) || (t.info[t.newAt[s]].refCount > 1 && t.info[id].refCount == 0)
  }

  /** Enters id at s if it may, and drops it if it is left without a reference. */
  function Settle(p: Placement, t: Tables, s: Slot, id: int, now: int, ghost limbo: set<int>): Tables
    requires Between(p, t, limbo, 0) && IsNew(t.info, id)
  {
    hide AddrOk, RandomOk, NewOk, TriedOk, RefOk, TimesOk, NewIds, TriedIds, RandomDefined, SwapRandom, ClearNew, Delete;
    OccupantKnown(p, t, s);
    if Holds(t.newAt, s, id) then t
    else if MayTake(t, s, id, now) then
      ClearNewKeeps(p, t, s, limbo, 0);
      Link(ClearNew(t, s), s, id)
    else if t.info[id].refCount == 0 then
      RandomFacts(t);
      PositionKnown(t, id);
      Delete(t, id)
    else t
  }

  lemma OccupantKnown(p: Placement, t: Tables, s: Slot)
    requires NewOk(p, t.info, t.newAt)
    ensures s in t.newAt ==> IsNew(t.info, t.newAt[s])
  {
    if s in t.newAt { assert MaySitInNew(p, t.info, s, t.newAt[s]); }
  }

  lemma OccupantReferenced(t: Tables, id: int, limbo: set<int>)
    requires RefOk(t.info, t.newAt, limbo) && IsNew(t.info, id) && id !in limbo
    ensures t.info[id].refCount >= 1
  {
  }

  lemma PositionKnown(t: Tables, id: int)
    requires RandomOk(t.info, t.random) && id in t.info
    ensures 0 <= t.info[id].randomPos < |t.random|
  {
  }

  lemma SettleKeeps(p: Placement, t: Tables, s: Slot, id: int, now: int, limbo: set<int>)
    requires Between(p, t, limbo, 0) && limbo <= {id}
    requires MaySitInNew(p, t.info, s, id) && t.info[id].refCount < NEW_BUCKETS_PER_ADDRESS
    requires t.info[id].refCount == 0 <==> id in limbo
    ensures Consistent(p, Settle(p, t, s, id, now, limbo))
  {
    hide AddrOk, RandomOk, NewOk, TriedOk, RefOk, TimesOk, NewIds, TriedIds, RandomDefined, SwapRandom, ClearNew, Delete, Link;
    OccupantKnown(p, t, s);
    assert limbo == {} || limbo == {id};
    if Holds(t.newAt, s, id) {
      SlotFacts(p, t, s, limbo, 0);
      assert limbo == {};
    } else if MayTake(t, s, id, now) {
      ClearNewKeeps(p, t, s, limbo, 0);
      LinkKeeps(p, ClearNew(t, s), s, id, limbo, 0);
      assert limbo - {id} == {};
    } else if t.info[id].refCount == 0 {
      LimboFacts(t, id, limbo);
      DeleteKeeps(p, t, id, limbo, 0);
      assert limbo - {id} == {};
    } else {
      assert limbo == {};
    }
  }

  function Add(e: Env, p: Placement, t: Tables, addr: Address, source: NetAddr, penaltyIn: int, now: int, draw: nat)
    : (r: (Tables, bool))
    requires p.InRange() && Consistent(p, t)
  {
    hide AddrOk, RandomOk, NewOk, TriedOk, TimesOk, NewIds, TriedIds, Settle;
    var penalty := if addr.service.ip == source then 0 else penaltyIn;
    if !e.routable(addr.service.ip) then (t, false)
    else if addr.service.ip in t.addrId then
      var id := t.addrId[addr.service.ip];
      ListedKnown(t, addr.service.ip);
      var x := Refreshed(t.info[id], addr, penalty, now);
      TimesKnown(t.info, id);
      TweakKeeps(p, t, id, x, {}, 0);
      var u := SetInfo(t, id, x);
      if WantsReference(x, addr, draw)
      then (Settle(p, u, p.NewSlot(x.addr.service, source), id, now, {}), false)
      else (u, false)
    else
      CreateKeeps(p, t, addr, source);
      var (u0, id) := Create(t, addr, source);
      var x := u0.info[id].(addr := addr.(time := Max(0, addr.time - penalty)));
      var u := u0.(nNew := u0.nNew + 1);
      TweakKeeps(p, u, id, x, {id}, 0);
      (Settle(p, SetInfo(u, id, x), p.NewSlot(addr.service, source), id, now, {id}), true)
  }

  lemma ListedKnown(t: Tables, ip: NetAddr)
    requires AddrOk(t.idCount, t.info, t.addrId) && ip in t.addrId
    ensures HasIp(t.info, t.addrId[ip], ip)
  {
  }

  lemma TimesKnown(info: map<int, Info>, id: int)
    requires TimesOk(info) && id in info
    ensures info[id].lastTry >= 0 && info[id].lastSuccess >= 0 && (info[id].inTried ==> info[id].lastSuccess > 0)
  {
  }

  lemma RefsKnown(info: map<int, Info>, newAt: map<Slot, int>, id: int)
    requires RefOk(info, newAt, {}) && IsNew(info, id)
    ensures 1 <= info[id].refCount <= NEW_BUCKETS_PER_ADDRESS
  {
  }

  lemma AddKeeps(e: Env, p: Placement, t: Tables, addr: Address, source: NetAddr, penaltyIn: int, now: int, draw: nat)
    requires p.InRange() && Consistent(p, t)
    ensures Consistent(p, Add(e, p, t, addr, source, penaltyIn, now, draw).0)
  {
    hide AddrOk, RandomOk, NewOk, TriedOk, TimesOk, RefOk, NewIds, TriedIds, Settle;
    var penalty := if addr.service.ip == source then 0 else penaltyIn;
    if e.routable(addr.service.ip) {
      if addr.service.ip in t.addrId {
        var id := t.addrId[addr.service.ip];
        ListedKnown(t, addr.service.ip);
        var x := Refreshed(t.info[id], addr, penalty, now);
        TimesKnown(t.info, id);
        TweakKeeps(p, t, id, x, {}, 0);
        var u := SetInfo(t, id, x);
        if WantsReference(x, addr, draw) {
          RefsKnown(u.info, u.newAt, id);
          SettleKeeps(p, u, p.NewSlot(x.addr.service, source), id, now, {});
        }
      } else {
        CreateKeeps(p, t, addr, source);
        var (u0, id) := Create(t, addr, source);
        var x := u0.info[id].(addr := addr.(time := Max(0, addr.time - penalty)));
        var u := u0.(nNew := u0.nNew + 1);
        TweakKeeps(p, u, id, x, {id}, 0);
        SettleKeeps(p, SetInfo(u, id, x), p.NewSlot(addr.service, source), id, now, {id});
      }
    }
  }

  // The remaining updates

  function Attempt(t: Tables, s: Service, countFailure: bool, time: int): Tables {
    var id := Lookup(t, s);
    if id == -1 then t
    else
      var x := t.info[id].(lastTry := time);
      SetInfo(t, id, if countFailure && x.lastCountAttempt < t.lastGood
                     then x.(lastCountAttempt := time, attempts := x.attempts + 1) else x)
  }

  function Connected(t: Tables, s: Service, time: int): Tables {
    var id := Lookup(t, s);
    if id == -1 then t
    else
      var x := t.info[id];
      if time - x.addr.time > 20 * 60 then SetInfo(t, id, x.(addr := x.addr.(time := time))) else t
  }

  function SetServices(t: Tables, s: Service, services: set<nat>): Tables {
    var id := Lookup(t, s);
    if id == -1 then t
    else
      var x := t.info[id];
      SetInfo(t, id, x.(addr := x.addr.(services := services)))
  }

  /** Any of these updates keeps the tables consistent, but for an attempt dated before
      the epoch on an address that is known. */
  lemma UpdateKeeps(p: Placement, t: Tables, s: Service, countFailure: bool, time: int, services: set<nat>)
    requires Consistent(p, t)
    ensures Consistent(p, Attempt(t, s, countFailure, time)) <==> Lookup(t, s) == -1 || time >= 0
    ensures Consistent(p, Connected(t, s, time))
    ensures Consistent(p, SetServices(t, s, services))
  {
    hide AddrOk, RandomOk, NewOk, TriedOk, TimesOk, RefOk, NewIds, TriedIds;
    var id := Lookup(t, s);
    if id != -1 {
      TimesKnown(t.info, id);
      var x := t.info[id];
      var u := Attempt(t, s, countFailure, time);
      if time >= 0 {
        TweakKeeps(p, t, id, u.info[id], {}, 0);
      } else if Consistent(p, u) {
        TimesKnown(u.info, id);
      }
      TweakKeeps(p, t, id, x.(addr := x.addr.(time := time)), {}, 0);
      TweakKeeps(p, t, id, x.(addr := x.addr.(services := services)), {}, 0);
    }
  }

  // GetAddr

  function GetAddrLimit(size: nat): nat {
    var n := GETADDR_MAX_PCT * size / 100;
    if n > GETADDR_MAX then GETADDR_MAX else n
  }

  lemma SwapOk(t: Tables, i: nat, j: nat)
    requires RandomOk(t.info, t.random) && i < |t.random| && j < |t.random|
    ensures RandomDefined(t)
    ensures var u := SwapRandom(t, i, j); Reordered(t, u) && RandomOk(u.info, u.random) && |u.random| == |t.random|
    ensures forall k | 0 <= k < |t.random| && k != i && k != j :: SwapRandom(t, i, j).random[k] == t.random[k]
  {
    if i != j { SwapPositions(t.info, t.random, i, j); }
  }

  function At(t: Tables, i: nat): (x: Info)
    requires RandomOk(t.info, t.random) && i < |t.random|
  {
    assert SitsAt(t.info, t.random[i], i);
    t.info[t.random[i]]
  }

  /** The gathering loop from position n on; draws are the random numbers. */
  function Gather(t: Tables, n: nat, got: seq<Address>, limit: nat, draws: seq<nat>, now: int): (r: (Tables, seq<Address>))
    requires RandomOk(t.info, t.random)
    decreases |t.random| - n
  {
    if n >= |t.random| || |got| >= limit then (t, got)
    else
      var j := n + (if n < |draws| then draws[n] % (|t.random| - n) else 0);
      SwapOk(t, n, j);
      var u := SwapRandom(t, n, j);
      var x := At(u, n);
      Gather(u, n + 1, if x.IsTerrible(now) then got else got + [x.addr], limit, draws, now)
  }

  function GetAddr(t: Tables, draws: seq<nat>, now: int): (r: (Tables, seq<Address>))
    requires RandomOk(t.info, t.random)
  {
    Gather(t, 0, [], GetAddrLimit(|t.random|), draws, now)
  }

  /** The addresses of the entries worth sharing among the first m in the random order. */
  function Picked(t: Tables, m: nat, now: int): (r: seq<Address>)
    requires RandomOk(t.info, t.random) && m <= |t.random|
  {
    if m == 0 then []
    else Picked(t, m - 1, now) + (if At(t, m - 1).IsTerrible(now) then [] else [At(t, m - 1).addr])
  }

  lemma {:induction false} PickedStable(t: Tables, u: Tables, m: nat, now: int)
    requires RandomOk(t.info, t.random) && RandomOk(u.info, u.random) && Reordered(t, u)
    requires m <= |t.random| && m <= |u.random|
    requires forall i | 0 <= i < m :: u.random[i] == t.random[i]
    ensures Picked(u, m, now) == Picked(t, m, now)
  {
    if m > 0 {
      PickedStable(t, u, m - 1, now);
      assert u.random[m - 1] == t.random[m - 1];
      assert At(u, m - 1) == At(t, m - 1).(randomPos := At(u, m - 1).randomPos);
    }
  }

  lemma {:induction false} GatherSound(p: Placement, t: Tables, n: nat, got: seq<Address>, limit: nat, draws: seq<nat>, now: int)
    returns (m: nat)
    requires Consistent(p, t) && n <= |t.random| && got == Picked(t, n, now) && |got| <= limit
    ensures var r := Gather(t, n, got, limit, draws, now);
      && Consistent(p, r.0) && Reordered(t, r.0) && |r.0.random| == |t.random|
      && m <= |t.random| && r.1 == Picked(r.0, m, now) && |r.1| <= limit
      && (|r.1| < limit ==> m == |t.random|)
    decreases |t.random| - n
  {
    hide AddrOk, NewOk, TriedOk, TimesOk, RefOk, NewIds, TriedIds, RandomOk, SwapRandom, At;
    if n >= |t.random| || |got| >= limit {
      m := n;
      ReorderedSame(t);
    } else {
      var j := n + (if n < |draws| then draws[n] % (|t.random| - n) else 0);
      SwapOk(t, n, j);
      var u := SwapRandom(t, n, j);
      ReorderedKeeps(p, t, u, {}, 0);
      PickedStable(t, u, n, now);
      var x := At(u, n);
      m := GatherSound(p, u, n + 1, if x.IsTerrible(now) then got else got + [x.addr], limit, draws, now);
    }
  }

  lemma ReorderedSame(t: Tables)
    ensures Reordered(t, t)
  {
  }

  ghost predicate Shareable(t: Tables, i: nat, a: Address, now: int)
    requires RandomOk(t.info, t.random)
  {
    i < |t.random| && At(t, i).addr == a && !At(t, i).IsTerrible(now)
  }

  lemma {:induction false} PickedExactly(t: Tables, m: nat, now: int)
    requires RandomOk(t.info, t.random) && m <= |t.random|
    ensures forall a | a in Picked(t, m, now) :: exists i :: 0 <= i < m && Shareable(t, i, a, now)
    ensures forall i, a | 0 <= i < m && Shareable(t, i, a, now) :: a in Picked(t, m, now)
  {
    hide RandomOk, At;
    if m > 0 {
      PickedExactly(t, m - 1, now);
      forall a | a in Picked(t, m, now) ensures exists i :: 0 <= i < m && Shareable(t, i, a, now) {
        if a in Picked(t, m - 1, now) {
          var i :| 0 <= i < m - 1 && Shareable(t, i, a, now);
        } else {
          assert Shareable(t, m - 1, a, now);
        }
      }
    }
  }

  ghost predicate DistinctIps(r: seq<Address>) {
    forall i, j | 0 <= i < j < |r| :: r[i].service.ip != r[j].service.ip
  }

  lemma IpsDiffer(t: Tables, i: nat, j: nat)
    requires RandomOk(t.info, t.random) && AddrOk(t.idCount, t.info, t.addrId) && i < j < |t.random|
    ensures At(t, i).Ip() != At(t, j).Ip()
  {
    var id1, id2 := t.random[i], t.random[j];
    assert SitsAt(t.info, t.random[i], i) && SitsAt(t.info, t.random[j], j);
    assert Listed(t.addrId, t.info[id1].Ip(), id1) && Listed(t.addrId, t.info[id2].Ip(), id2);
  }

  lemma {:induction false} PickedDistinct(t: Tables, m: nat, now: int)
    requires RandomOk(t.info, t.random) && AddrOk(t.idCount, t.info, t.addrId) && m <= |t.random|
    ensures DistinctIps(Picked(t, m, now))
  {
    hide RandomOk, AddrOk, At;
    if m > 0 {
      PickedDistinct(t, m - 1, now);
      PickedExactly(t, m - 1, now);
      var old_, r := Picked(t, m - 1, now), Picked(t, m, now);
      forall i, j | 0 <= i < j < |r| ensures r[i].service.ip != r[j].service.ip {
        if j == |old_| {
          assert r[i] == old_[i] && r[i] in old_ && r[j] == At(t, m - 1).addr;
          var k :| 0 <= k < m - 1 && Shareable(t, k, r[i], now);
          IpsDiffer(t, k, m - 1);
        } else {
          assert r[i] == old_[i] && r[j] == old_[j];
        }
      }
    }
  }

  /** GetAddr returns entries worth sharing, no address twice, within the limit,
      and all of them when it returns fewer than the limit. */
  lemma GetAddrSound(p: Placement, t: Tables, draws: seq<nat>, now: int)
    requires Consistent(p, t)
    ensures var r := GetAddr(t, draws, now);
      && Consistent(p, r.0) && Reordered(t, r.0)
      && |r.1| <= GetAddrLimit(|t.random|)
      && DistinctIps(r.1)
      && (forall a | a in r.1 :: exists i :: 0 <= i < |r.0.random| && Shareable(r.0, i, a, now))
      && (|r.1| < GetAddrLimit(|t.random|) ==>
            forall i, a | 0 <= i < |r.0.random| && Shareable(r.0, i, a, now) :: a in r.1)
  {
    hide AddrOk, NewOk, TriedOk, TimesOk, RefOk, NewIds, TriedIds, RandomOk, At, Gather, Shareable, Reordered;
    var m := GatherSound(p, t, 0, [], GetAddrLimit(|t.random|), draws, now);
    var u := GetAddr(t, draws, now).0;
    PickedExactly(u, m, now);
    PickedDistinct(u, m, now);
  }

  /** At most 2500 addresses are given out, and at most 23 in a hundred; if fewer than that, then every one worth sharing. */
  lemma GetAddrShare(p: Placement, t: Tables, draws: seq<nat>, now: int)
    requires Consistent(p, t)
    ensures var r := GetAddr(t, draws, now);
      && Consistent(p, r.0) && |r.1| <= 2500 && 100 * |r.1| <= 23 * |t.random|
      && (|r.1| < 2500 && 100 * (|r.1| + 1) <= 23 * |t.random| ==>
            forall i, a | 0 <= i < |r.0.random| && Shareable(r.0, i, a, now) :: a in r.1)
  {
    hide Consistent, GetAddr, Shareable, RandomOk, Reordered, DistinctIps;
    GetAddrSound(p, t, draws, now);
  }

  // Runs

  datatype Operation =
    | OpAdd(addr: Address, source: NetAddr, penalty: int, now: int, draw: nat)
    | OpGood(service: Service, time: int)
    | OpAttempt(service: Service, countFailure: bool, time: int)
    | OpConnected(service: Service, time: int)
    | OpSetServices(service: Service, services: set<nat>)
    | OpGetAddr(draws: seq<nat>, now: int)
  {
    /** Clock readings that end up in an entry are not before the epoch, and those of
        successes are after it. */
    predicate Timely() {
      match this
      case OpGood(_, time) => time > 0
      case OpAttempt(_, _, time) => time >= 0
      case _ => true
    }
  }

  function Step(e: Env, p: Placement, t: Tables, op: Operation): Tables
    requires p.InRange() && Consistent(p, t) && op.Timely()
  {
    match op
    case OpAdd(addr, source, penalty, now, draw) => Add(e, p, t, addr, source, penalty, now, draw).0
    case OpGood(s, time) => Good(p, t, s, time)
    case OpAttempt(s, countFailure, time) => Attempt(t, s, countFailure, time)
    case OpConnected(s, time) => Connected(t, s, time)
    case OpSetServices(s, services) => SetServices(t, s, services)
    case OpGetAddr(draws, now) => GetAddr(t, draws, now).0
  }

  lemma StepKeeps(e: Env, p: Placement, t: Tables, op: Operation)
    requires p.InRange() && Consistent(p, t) && op.Timely()
    ensures Consistent(p, Step(e, p, t, op))
  {
    hide Consistent, Add, Good, Attempt, Connected, SetServices, GetAddr, RandomOk;
    match op
    case OpAdd(addr, source, penalty, now, draw) => AddKeeps(e, p, t, addr, source, penalty, now, draw);
    case OpGood(s, time) => GoodKeeps(p, t, s, time);
    case OpAttempt(s, countFailure, time) => UpdateKeeps(p, t, s, countFailure, time, {});
    case OpConnected(s, time) => UpdateKeeps(p, t, s, false, time, {});
    case OpSetServices(s, services) => UpdateKeeps(p, t, s, false, 0, services);
    case OpGetAddr(draws, now) => GetAddrSound(p, t, draws, now);
  }

  /** The state after each prefix of a run. */
  function Run(e: Env, p: Placement, t: Tables, ops: seq<Operation>): (u: Tables)
    requires p.InRange() && Consistent(p, t) && forall i | 0 <= i < |ops| :: ops[i].Timely()
    ensures Consistent(p, u)
    decreases |ops|
  {
    if ops == [] then t
    else
      StepKeeps(e, p, t, ops[0]);
      Run(e, p, Step(e, p, t, ops[0]), ops[1..])
  }

  lemma SettleKey(p: Placement, t: Tables, s: Slot, id: int, now: int, limbo: set<int>)
    requires Between(p, t, limbo, 0) && IsNew(t.info, id)
    ensures Settle(p, t, s, id, now, limbo).key == t.key
  {
    hide AddrOk, RandomOk, NewOk, TriedOk, TimesOk, RefOk, NewIds, TriedIds, RandomDefined;
  }

  lemma MakeTriedKey(p: Placement, t: Tables, id: int)
    requires p.InRange() && Consistent(p, t) && IsNew(t.info, id)
    ensures MakeTried(p, t, id).key == t.key
  {
    hide AddrOk, RandomOk, NewOk, TriedOk, TimesOk, RefOk, NewIds, TriedIds, RandomDefined;
  }

  lemma AddKey(e: Env, p: Placement, t: Tables, addr: Address, source: NetAddr, penaltyIn: int, now: int, draw: nat)
    requires p.InRange() && Consistent(p, t)
    ensures Add(e, p, t, addr, source, penaltyIn, now, draw).0.key == t.key
  {
    hide AddrOk, RandomOk, NewOk, TriedOk, TimesOk, RefOk, NewIds, TriedIds, Settle;
    var penalty := if addr.service.ip == source then 0 else penaltyIn;
    if e.routable(addr.service.ip) {
      if addr.service.ip in t.addrId {
        var id := t.addrId[addr.service.ip];
        ListedKnown(t, addr.service.ip);
        var x := Refreshed(t.info[id], addr, penalty, now);
        TimesKnown(t.info, id);
        TweakKeeps(p, t, id, x, {}, 0);
        if WantsReference(x, addr, draw) {
          SettleKey(p, SetInfo(t, id, x), p.NewSlot(x.addr.service, source), id, now, {});
        }
      } else {
        CreateKeeps(p, t, addr, source);
        var (u0, id) := Create(t, addr, source);
        var x := u0.info[id].(addr := addr.(time := Max(0, addr.time - penalty)));
        var u := u0.(nNew := u0.nNew + 1);
        TweakKeeps(p, u, id, x, {id}, 0);
        SettleKey(p, SetInfo(u, id, x), p.NewSlot(addr.service, source), id, now, {id});
      }
    }
  }

  lemma GoodKey(p: Placement, t: Tables, s: Service, time: int)
    requires p.InRange() && Consistent(p, t) && time > 0
    ensures Good(p, t, s, time).key == t.key
  {
    hide AddrOk, RandomOk, NewOk, TriedOk, TimesOk, RefOk, NewIds, TriedIds, MakeTried;
    var id := Lookup(t, s);
    if id != -1 {
      var t1, x := t.(lastGood := time), Succeeded(t.info[id], time);
      TweakKeeps(p, t1, id, x, {}, 0);
      if !x.inTried { MakeTriedKey(p, SetInfo(t1, id, x), id); }
    }
  }

  lemma StepKey(e: Env, p: Placement, t: Tables, op: Operation)
    requires p.InRange() && Consistent(p, t) && op.Timely()
    ensures Step(e, p, t, op).key == t.key
  {
    hide Consistent, Add, Good, GetAddr, RandomOk, Repositioned;
    match op
    case OpAdd(addr, source, penalty, now, draw) => AddKey(e, p, t, addr, source, penalty, now, draw);
    case OpGood(s, time) => GoodKey(p, t, s, time);
    case OpGetAddr(draws, now) => GetAddrSound(p, t, draws, now);
    case _ =>
  }

  /** No operation changes the secret key. */
  lemma {:induction false} RunKey(e: Env, p: Placement, t: Tables, ops: seq<Operation>)
    requires p.InRange() && Consistent(p, t) && forall i | 0 <= i < |ops| :: ops[i].Timely()
    ensures Run(e, p, t, ops).key == t.key
    decreases |ops|
  {
    hide Consistent, Step;
    if ops != [] {
      StepKeeps(e, p, t, ops[0]);
      StepKey(e, p, t, ops[0]);
      RunKey(e, p, Step(e, p, t, ops[0]), ops[1..]);
    }
  }

  lemma EmptyConsistent(p: Placement, key: nat)
    ensures Consistent(p, EmptyTables(key))
  {
    assert TriedIds(map[]) == {} && NewIds(map[]) == {};
  }
}
