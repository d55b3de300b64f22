/** What holds of the address manager over whole runs, and what single
    operations promise about the addresses they touch. */
module AddrTheorems {
  import opened AddrTables
  import opened AddrOperations

  /** What the internal consistency check looks for, in its own terms. */
  ghost predicate CheckPasses(p: Placement, t: Tables) {
    && |t.random| == t.nTried + t.nNew
    && (forall id | id in t.info :: EntryChecks(t, id))
    && t.nTried == |TriedIds(t.info)| && t.nNew == |NewIds(t.info)|
    && (forall s | s in t.triedAt :: MaySitInTried(p, t.info, s, t.triedAt[s]))
    && (forall s | s in t.newAt :: MaySitInNew(p, t.info, s, t.newAt[s]))
    && (forall id | IsTried(t.info, id) :: |RefSlots(t.triedAt, id)| == 1)
    && (forall id | IsNew(t.info, id) :: |RefSlots(t.newAt, id)| == t.info[id].refCount)
    && t.key != 0
  }

  ghost predicate EntryChecks(t: Tables, id: int)
    requires id in t.info
  {
    var x := t.info[id];
    && (x.inTried ==> x.lastSuccess != 0 && x.refCount == 0)
    && (!x.inTried ==> 1 <= x.refCount <= NEW_BUCKETS_PER_ADDRESS)
    && Listed(t.addrId, x.Ip(), id)
    && 0 <= x.randomPos < |t.random| && t.random[x.randomPos] == id
    && x.lastTry >= 0 && x.lastSuccess >= 0
  }

  function Elements(s: seq<int>): set<int> {
    set x | x in s
  }

  lemma {:induction false} DistinctSize(s: seq<int>)
    requires forall i, j | 0 <= i < j < |s| :: s[i] != s[j]
    ensures |Elements(s)| == |s|
  {
    if s != [] {
      var init, last := s[..|s| - 1], s[|s| - 1];
      DistinctSize(init);
      assert Elements(s) == Elements(init) + {last};
      assert last !in Elements(init);
    }
  }

  lemma RandomSize(info: map<int, Info>, random: seq<int>)
    requires RandomOk(info, random)
    ensures |random| == |TriedIds(info)| + |NewIds(info)|
  {
    forall i, j | 0 <= i < j < |random| ensures random[i] != random[j] {
      assert SitsAt(info, random[i], i) && SitsAt(info, random[j], j);
    }
    DistinctSize(random);
    forall id ensures id in Elements(random) <==> id in TriedIds(info) + NewIds(info) {
      if id in random {
        var i :| 0 <= i < |random| && random[i] == id;
        assert SitsAt(info, random[i], i);
      }
    }
    assert Elements(random) == TriedIds(info) + NewIds(info);
    assert TriedIds(info) !! NewIds(info);
  }

  lemma OneTriedSlot(p: Placement, info: map<int, Info>, triedAt: map<Slot, int>, id: int)
    requires TriedOk(p, info, triedAt) && IsTried(info, id)
    ensures |RefSlots(triedAt, id)| == 1
  {
    forall s | s in triedAt && triedAt[s] == id ensures s == p.triedSlot(info[id].addr.service) {
      assert MaySitInTried(p, info, s, triedAt[s]);
    }
    assert RefSlots(triedAt, id) == {p.triedSlot(info[id].addr.service)};
  }

  lemma EntryPasses(p: Placement, t: Tables, id: int)
    requires Consistent(p, t) && id in t.info
    ensures EntryChecks(t, id)
  {
    hide NewOk, TriedOk, NewIds, TriedIds;
    if t.info[id].inTried { TriedHasNoRefs(p, t.info, t.newAt, id); }
  }

  lemma TriedHasNoRefs(p: Placement, info: map<int, Info>, newAt: map<Slot, int>, id: int)
    requires NewOk(p, info, newAt) && IsTried(info, id)
    ensures RefSlots(newAt, id) == {}
  {
    forall s | s in newAt ensures !Holds(newAt, s, id) {
      assert MaySitInNew(p, info, s, newAt[s]);
    }
  }

  /** Of consistent tables the check faults only a null key. */
  lemma ConsistentPasses(p: Placement, t: Tables)
    requires Consistent(p, t)
    ensures CheckPasses(p, t) <==> t.key != 0
  {
    hide AddrOk, RandomOk, TimesOk, NewIds, TriedIds, EntryChecks;
    RandomSize(t.info, t.random);
    forall id | id in t.info ensures EntryChecks(t, id) {
      EntryPasses(p, t, id);
    }
    forall id | IsTried(t.info, id) ensures |RefSlots(t.triedAt, id)| == 1 {
      OneTriedSlot(p, t.info, t.triedAt, id);
    }
  }

  /** After any run from an empty manager the whole consistency check passes, unless the
      manager was given a null key. */
  lemma EveryRunPasses(e: Env, key: nat, ops: seq<Operation>)
    requires forall i | 0 <= i < |ops| :: ops[i].Timely()
    ensures var p := Place(e, key);
      Consistent(p, EmptyTables(key)) && (CheckPasses(p, Run(e, p, EmptyTables(key), ops)) <==> key != 0)
  {
    hide Consistent, CheckPasses, Place;
    var p := Place(e, key);
    EmptyConsistent(p, key);
    RunKey(e, p, EmptyTables(key), ops);
    ConsistentPasses(p, Run(e, p, EmptyTables(key), ops));
  }

  // What Add promises

  /** The position a new address is offered, and whether it gets it. */
  ghost predicate PositionYields(p: Placement, t: Tables, s: Slot, now: int)
    requires Consistent(p, t)
  {
    OccupantKnown(p, t, s);
    s !in t.newAt || t.info[t.newAt[s]].IsTerrible(now) || t.info[t.newAt[s]].refCount > 1
  }

  /** Settling a fresh entry: it stays exactly when its position yields. */
  lemma SettleFresh(p: Placement, t: Tables, s: Slot, id: int, now: int)
    requires Between(p, t, {id}, 0) && MaySitInNew(p, t.info, s, id)
    requires !Holds(t.newAt, s, id) && t.info[id].refCount == 0
    ensures var u := Settle(p, t, s, id, now, {id});
      && (id in u.info <==> MayTake(t, s, id, now))
      && (id in u.info ==> Holds(u.newAt, s, id) && u.info[id].refCount == 1)
      && (id !in u.info ==> u.info.Keys == t.info.Keys - {id} && u.newAt == t.newAt)
      && (forall k | k in t.info && k != id && !Holds(t.newAt, s, k) :: k in u.info)
  {
    hide AddrOk, RandomOk, NewOk, TriedOk, RefOk, TimesOk, NewIds, TriedIds, RandomDefined, SwapRandom, ClearNew, Delete;
    OccupantKnown(p, t, s);
    if MayTake(t, s, id, now) {
      ClearNewKeeps(p, t, s, {id}, 0);
      LimboKept(t.info, t.newAt, ClearNew(t, s).info, {id}, s);
    } else {
      LimboFacts(t, id, {id});
      DeleteKeeps(p, t, id, {id}, 0);
    }
  }

  /** Creating an entry and deleting it at once uses up an id and changes nothing else. */
  lemma CreateDelete(t: Tables, addr: Address, source: NetAddr, x: Info)
    requires t.idCount !in t.info && addr.service.ip !in t.addrId
    requires x.Ip() == addr.service.ip && x.randomPos == |t.random|
    requires var (u, id) := Create(t, addr, source); RandomDefined(SetInfo(u, id, x))
    ensures var (u, id) := Create(t, addr, source);
      Delete(SetInfo(u.(nNew := u.nNew + 1), id, x), id) == t.(idCount := t.idCount + 1)
  {
    var (u0, id) := Create(t, addr, source);
    var u := SetInfo(u0.(nNew := u0.nNew + 1), id, x);
    assert u.random[..|t.random|] == t.random;
    assert u.addrId - {x.Ip()} == t.addrId;
    assert u.info - {id} == t.info;
  }

  /** A new address whose position does not yield is dropped without a trace. */
  lemma AddDrops(e: Env, p: Placement, t: Tables, addr: Address, source: NetAddr, penalty: int, now: int, draw: nat)
    requires p.InRange() && Consistent(p, t) && e.routable(addr.service.ip) && addr.service.ip !in t.addrId
    requires !PositionYields(p, t, p.NewSlot(addr.service, source), now)
    ensures Add(e, p, t, addr, source, penalty, now, draw) == (t.(idCount := t.idCount + 1), true)
  {
    hide AddrOk, RandomOk, NewOk, TriedOk, RefOk, TimesOk, NewIds, TriedIds, Delete, RandomDefined;
    CreateKeeps(p, t, addr, source);
    NewIdUnused(p, t);
    var pen := if addr.service.ip == source then 0 else penalty;
    var (u0, id) := Create(t, addr, source);
    var x := u0.info[id].(addr := addr.(time := Max(0, addr.time - pen)));
    var u := u0.(nNew := u0.nNew + 1);
    TweakKeeps(p, u, id, x, {id}, 0);
    OccupantKnown(p, t, p.NewSlot(addr.service, source));
    RandomFacts(SetInfo(u, id, x));
    SameRandom(SetInfo(u, id, x), SetInfo(u0, id, x));
    CreateDelete(t, addr, source, x);
  }

  lemma SameRandom(t: Tables, u: Tables)
    requires RandomDefined(t) && t.info == u.info && t.random == u.random
    ensures RandomDefined(u)
  {
  }

  /** Add reports true exactly for a routable address it did not know. The address
      is then known afterwards if and only if its position yields, so Add can
      report true for an address it has just dropped. */
  lemma AddPresence(e: Env, p: Placement, t: Tables, addr: Address, source: NetAddr, penalty: int, now: int, draw: nat)
    requires p.InRange() && Consistent(p, t)
    ensures var r := Add(e, p, t, addr, source, penalty, now, draw);
      var s := p.NewSlot(addr.service, source);
      && (r.1 <==> e.routable(addr.service.ip) && addr.service.ip !in t.addrId)
      && (r.1 ==>
            && (t.idCount in r.0.info <==> PositionYields(p, t, s, now))
            && (t.idCount in r.0.info ==> Holds(r.0.newAt, s, t.idCount) && r.0.info[t.idCount].refCount == 1)
            && (t.idCount !in r.0.info ==> r.0 == t.(idCount := t.idCount + 1))
            && (forall k | k in t.info && !Holds(t.newAt, s, k) :: k in r.0.info))
  {
    hide AddrOk, RandomOk, NewOk, TriedOk, RefOk, TimesOk, NewIds, TriedIds, Settle;
    if e.routable(addr.service.ip) && addr.service.ip !in t.addrId {
      CreateKeeps(p, t, addr, source);
      NewIdUnused(p, t);
      var pen := if addr.service.ip == source then 0 else penalty;
      var (u0, id) := Create(t, addr, source);
      var x := u0.info[id].(addr := addr.(time := Max(0, addr.time - pen)));
      var u := u0.(nNew := u0.nNew + 1);
      TweakKeeps(p, u, id, x, {id}, 0);
      var s := p.NewSlot(addr.service, source);
      OccupantKnown(p, t, s);
      SettleFresh(p, SetInfo(u, id, x), s, id, now);
      if !PositionYields(p, t, s, now) { AddDrops(e, p, t, addr, source, penalty, now, draw); }
    }
  }

  /** An environment in which every hash is the same, so that all addresses compete for one position. */
  function OneSlotEnv(): Env {
    Env(_ => 0, _ => [], _ => true)
  }

  /** Two addresses added at the same moment: both calls report true, and the second
      address is unknown afterwards. */
  lemma AddReportsDropped()
    ensures var e := OneSlotEnv(); var p, t := Place(e, 1), EmptyTables(1);
      var first, second := Address(Service([1], 0), {}, 1000), Address(Service([2], 0), {}, 1000);
      && Consistent(p, t)
      && var (u, ok) := Add(e, p, t, first, [9], 0, 1000, 0);
      && ok && Consistent(p, u)
      && var (v, ok2) := Add(e, p, u, second, [9], 0, 1000, 0);
      ok2 && u.idCount !in v.info && [2] !in v.addrId && v.info == u.info
  {
    hide Consistent, AddrOk, RandomOk, NewOk, TriedOk, RefOk, TimesOk, NewIds, TriedIds;
    var e := OneSlotEnv();
    var p, t := Place(e, 1), EmptyTables(1);
    var first, second := Address(Service([1], 0), {}, 1000), Address(Service([2], 0), {}, 1000);
    var s := Slot(0, 0);
    assert p.NewSlot(first.service, [9]) == s && p.NewSlot(second.service, [9]) == s;
    EmptyConsistent(p, 1);
    AddKeeps(e, p, t, first, [9], 0, 1000, 0);
    AddPresence(e, p, t, first, [9], 0, 1000, 0);
    var u := Add(e, p, t, first, [9], 0, 1000, 0).0;
    AddPresence(e, p, u, second, [9], 0, 1000, 0);
  }

  lemma NewIdUnused(p: Placement, t: Tables)
    requires Consistent(p, t)
    ensures t.idCount !in t.info && forall s | s in t.newAt :: t.newAt[s] != t.idCount
  {
    forall s | s in t.newAt ensures t.newAt[s] != t.idCount {
      assert MaySitInNew(p, t.info, s, t.newAt[s]);
    }
  }

  // What Good promises

  /** The evicted entry is back in the new table with one reference; only the
      last reference to another entry can be lost, at the position it moves to. */
  lemma EvictEffect(p: Placement, t: Tables, s: Slot, limbo: set<int>, uncounted: nat)
    requires p.InRange() && Between(p, t, limbo, uncounted) && s in t.triedAt && IsTried(t.info, t.triedAt[s])
    ensures var u := Evict(p, t, s, limbo, uncounted);
      var id := t.triedAt[s];
      var q := p.NewSlot(t.info[id].addr.service, t.info[id].source);
      && u.info.Keys <= t.info.Keys
      && IsNew(u.info, id) && u.info[id].refCount == 1 && Holds(u.newAt, q, id)
      && (forall k | k in t.info && k !in u.info :: Holds(t.newAt, q, k) && t.info[k].refCount == 1)
  {
    hide AddrOk, RandomOk, NewOk, TriedOk, RefOk, TimesOk, NewIds, TriedIds, SwapRandom, ClearNew;
    var id := t.triedAt[s];
    DemoteKeeps(p, t, s, id, limbo, uncounted);
    var u := Demote(t, s, id);
    var q := p.NewSlot(u.info[id].addr.service, u.info[id].source);
    ClearNewKeeps(p, u, q, limbo + {id}, uncounted + 1);
    LimboKept(u.info, u.newAt, ClearNew(u, q).info, limbo + {id}, q);
    OccupantKnown(p, u, q);
    if q in u.newAt { SlotFacts(p, u, q, limbo + {id}, uncounted + 1); OccupantReferenced(u, u.newAt[q], limbo + {id}); }
  }

  /** An id that Good may forget: the only reference to it sits where the entry
      evicted from the tried table goes. */
  ghost predicate Displaced(p: Placement, t: Tables, id: int, k: int)
    requires IsNew(t.info, id)
  {
    var s := p.triedSlot(t.info[id].addr.service);
    && k != id
    && s in t.triedAt
    && IsTried(t.info, t.triedAt[s])
    && var x := t.info[t.triedAt[s]];
      k in t.info && t.info[k].refCount == 1 && Holds(t.newAt, p.NewSlot(x.addr.service, x.source), k)
  }

  lemma MakeTriedEffect(p: Placement, t: Tables, id: int)
    requires p.InRange() && Consistent(p, t) && IsNew(t.info, id) && t.info[id].lastSuccess > 0
    ensures var u := MakeTried(p, t, id);
      && IsTried(u.info, id) && Holds(u.triedAt, p.triedSlot(t.info[id].addr.service), id)
      && u.info[id].lastSuccess == t.info[id].lastSuccess && u.info[id].addr == t.info[id].addr
      && RefSlots(u.newAt, id) == {}
      && u.info.Keys <= t.info.Keys
      && (forall k | k in t.info && k !in u.info :: Displaced(p, t, id, k))
  {
    hide AddrOk, RandomOk, NewOk, TriedOk, RefOk, TimesOk, NewIds, TriedIds, SwapRandom, ClearNew, Evict;
    UnlinkKeeps(p, t, id);
    var u := Unlink(t, id).(nNew := t.nNew - 1);
    var s := p.triedSlot(t.info[id].addr.service);
    EvictSurvives(p, u, s, id);
    MakeTriedKeeps(p, t, id);
    TriedHasNoRefs(p, MakeTried(p, t, id).info, MakeTried(p, t, id).newAt, id);
    if s in u.triedAt {
      DemoteKeeps(p, u, s, u.triedAt[s], {id}, 1);
      EvictEffect(p, u, s, {id}, 1);
    }
  }

  /** Good puts a known service in the tried table with fresh statistics, and
      forgets at most the one displaced address. */
  lemma GoodEffect(p: Placement, t: Tables, s: Service, time: int)
    requires p.InRange() && Consistent(p, t) && time > 0
    ensures var u := Good(p, t, s, time);
      var id := Lookup(t, s);
      && (id == -1 ==> u == t.(lastGood := time))
      && (id != -1 ==>
            && IsTried(u.info, id) && Holds(u.triedAt, p.triedSlot(s), id)
            && u.info[id].lastSuccess == time && u.info.Keys <= t.info.Keys
            && (IsTried(t.info, id) ==> u.info.Keys == t.info.Keys && u.triedAt == t.triedAt && u.newAt == t.newAt)
            && (IsNew(t.info, id) ==> forall k | k in t.info && k !in u.info :: Displaced(p, t, id, k)))
  {
    hide AddrOk, RandomOk, NewOk, TriedOk, RefOk, TimesOk, NewIds, TriedIds, MakeTried;
    var id := Lookup(t, s);
    if id != -1 {
      var t1, x := t.(lastGood := time), Succeeded(t.info[id], time);
      TweakKeeps(p, t1, id, x, {}, 0);
      var t2 := SetInfo(t1, id, x);
      if x.inTried {
        TriedHeld(p, t, id);
      } else {
        HasRefs(p, t2, id);
        MakeTriedEffect(p, t2, id);
      }
    }
  }

  lemma TriedHeld(p: Placement, t: Tables, id: int)
    requires TriedOk(p, t.info, t.triedAt) && IsTried(t.info, id)
    ensures Holds(t.triedAt, p.triedSlot(t.info[id].addr.service), id)
  {
  }
}
