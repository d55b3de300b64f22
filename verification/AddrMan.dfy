/** The stochastic address manager as an object: two id maps, the random order,
    the two bucket tables and the counters, updated in place. Each method is
    tied to the step on the tables that it performs. */
module AddrMan {
  import opened AddrTables
  import opened AddrOperations
  import opened AddrSerial
  import opened Powers
  import AddrRoundTrip

  /** The filled positions of a bucket table; -1 marks an empty one. */
  ghost function Filled(a: array2<int>): map<Slot, int>
    reads a
  {
    map b, i | 0 <= b < a.Length0 && 0 <= i < a.Length1 && a[b, i] != -1 :: Slot(b, i) := a[b, i]
  }

  lemma FilledAt(a: array2<int>, b: nat, i: nat)
    requires b < a.Length0 && i < a.Length1
    ensures a[b, i] != -1 <==> Slot(b, i) in Filled(a)
    ensures a[b, i] != -1 ==> Filled(a)[Slot(b, i)] == a[b, i]
  {
  }

  method ClearSlot(a: array2<int>, b: nat, i: nat)
    requires b < a.Length0 && i < a.Length1
    modifies a
    ensures Filled(a) == old(Filled(a)) - {Slot(b, i)}
  {
    a[b, i] := -1;
  }

  method SetSlot(a: array2<int>, b: nat, i: nat, id: int)
    requires b < a.Length0 && i < a.Length1 && id != -1
    modifies a
    ensures Filled(a) == old(Filled(a))[Slot(b, i) := id]
  {
    a[b, i] := id;
  }

  method Wipe(a: array2<int>)
    modifies a
    ensures Filled(a) == map[]
  {
    for b := 0 to a.Length0
      invariant forall c, j | 0 <= c < b && 0 <= j < a.Length1 :: a[c, j] == -1
    {
      for i := 0 to a.Length1
        invariant forall c, j | 0 <= c < b && 0 <= j < a.Length1 :: a[c, j] == -1
        invariant forall j | 0 <= j < i :: a[b, j] == -1
      {
        a[b, i] := -1;
      }
    }
  }

  class CAddrMan {
    const env: Env
    var nKey: nat
    var nIdCount: int
    var mapInfo: map<int, Info>
    var mapAddr: map<NetAddr, int>
    var vRandom: seq<int>
    var nTried: int
    const vvTried: array2<int>
    var nNew: int
    const vvNew: array2<int>
    var nLastGood: int

    ghost predicate Shape()
    {
      && vvTried.Length0 == TRIED_BUCKET_COUNT && vvTried.Length1 == BUCKET_SIZE
      && vvNew.Length0 == NEW_BUCKET_COUNT && vvNew.Length1 == BUCKET_SIZE
      && vvNew != vvTried
    }

    ghost function Model(): Tables
      reads this, vvTried, vvNew
    {
      Tables(nKey, nIdCount, mapInfo, mapAddr, vRandom, nTried, Filled(vvTried), nNew, Filled(vvNew), nLastGood)
    }

    ghost function Places(): Placement
      reads this
    {
      Place(env, nKey)
    }

    ghost predicate Valid()
      reads this, vvTried, vvNew
    {
      Shape() && Consistent(Places(), Model())
    }

    constructor (e: Env, key: nat)
      ensures Valid() && Model() == EmptyTables(key) && env == e
    {
      env := e;
      nKey, nIdCount, mapInfo, mapAddr, vRandom := key, 0, map[], map[], [];
      nTried, nNew, nLastGood := 0, 0, 1;
      vvTried := new int[TRIED_BUCKET_COUNT, BUCKET_SIZE]((_, _) => -1);
      vvNew := new int[NEW_BUCKET_COUNT, BUCKET_SIZE]((_, _) => -1);
      new;
      assert Filled(vvTried) == map[];
      assert Filled(vvNew) == map[];
      EmptyConsistent(Places(), key);
    }

    method Create(addr: Address, source: NetAddr) returns (nId: int)
      modifies this
      ensures (Model(), nId) == AddrTables.Create(old(Model()), addr, source)
    {
      nId := nIdCount;
      nIdCount := nIdCount + 1;
      mapInfo := mapInfo[nId := NewInfo(addr, source)];
      mapAddr := mapAddr[addr.service.ip := nId];
      mapInfo := mapInfo[nId := mapInfo[nId].(randomPos := |vRandom|)];
      assert mapInfo == old(mapInfo)[nId := NewInfo(addr, source).(randomPos := |vRandom|)];
      vRandom := vRandom + [nId];
    }

    method SwapRandom(i: nat, j: nat)
      requires RandomOk(mapInfo, vRandom)
      requires i < |vRandom| && j < |vRandom|
      modifies this
      ensures RandomDefined(old(Model())) && Model() == AddrTables.SwapRandom(old(Model()), i, j)
    {
      assert RandomDefined(Model());
      if i == j { return; }
      assert i < |vRandom| && j < |vRandom|;
      var nId1, nId2 := vRandom[i], vRandom[j];
      assert SitsAt(mapInfo, vRandom[i], i) && SitsAt(mapInfo, vRandom[j], j);
      mapInfo := mapInfo[nId1 := mapInfo[nId1].(randomPos := j)];
      mapInfo := mapInfo[nId2 := mapInfo[nId2].(randomPos := i)];
      vRandom := vRandom[i := nId2];
      vRandom := vRandom[j := nId1];
    }

    method Delete(nId: int, ghost limbo: set<int>, ghost uncounted: nat)
      requires Shape() && Between(Places(), Model(), limbo, uncounted) && nId in limbo
      modifies this
      ensures LimboReady(old(Model()), nId)
      ensures Model() == AddrTables.Delete(old(Model()), nId)
    {
      hide AddrOk, NewOk, TriedOk, TimesOk, NewIds, TriedIds, RefOk, RandomOk, RandomDefined, Filled, AddrTables.SwapRandom;
      LimboFacts(Model(), nId, limbo);
      LimboCount(mapInfo, Filled(vvNew), limbo, nId);
      assert nId in mapInfo;
      var info := mapInfo[nId];
      assert !info.inTried;
      assert info.refCount == 0;
      SwapOk(Model(), info.randomPos, |vRandom| - 1);
      SwapRandom(info.randomPos, |vRandom| - 1);
      vRandom := vRandom[..|vRandom| - 1];
      mapAddr := mapAddr - {info.Ip()};
      mapInfo := mapInfo - {nId};
      nNew := nNew - 1;
    }

    method ClearNew(b: nat, i: nat, ghost limbo: set<int>, ghost uncounted: nat)
      requires Shape() && Between(Places(), Model(), limbo, uncounted)
      requires b < NEW_BUCKET_COUNT && i < BUCKET_SIZE
      modifies this, vvNew
      ensures OccupantReady(old(Model()), Slot(b, i))
      ensures Model() == AddrTables.ClearNew(old(Model()), Slot(b, i))
    {
      hide AddrOk, NewOk, TriedOk, TimesOk, NewIds, TriedIds, RefOk, RandomOk, RandomDefined, AddrTables.Delete;
      RandomFacts(Model());
      ghost var p, t, s := Places(), Model(), Slot(b, i);
      if vvNew[b, i] != -1 {
        var nIdDelete := vvNew[b, i];
        assert t.newAt[s] == nIdDelete;
        SlotFacts(p, t, s, limbo, uncounted);
        OccupantReferenced(t, nIdDelete, limbo);
        UnlinkSome(p, t, {s}, nIdDelete, limbo, uncounted);
        assert mapInfo[nIdDelete].refCount > 0;
        mapInfo := mapInfo[nIdDelete := mapInfo[nIdDelete].(refCount := mapInfo[nIdDelete].refCount - 1)];
        ClearSlot(vvNew, b, i);
        if mapInfo[nIdDelete].refCount == 0 {
          Delete(nIdDelete, limbo + {nIdDelete}, uncounted);
        }
      } else {
        assert s !in t.newAt;
      }
    }

    /** The loop of MakeTried that removes an entry from all new buckets. */
    method LeaveNewBuckets(nId: int)
      requires Valid() && IsNew(mapInfo, nId)
      modifies this, vvNew
      ensures Model() == Unlink(old(Model()), nId)
    {
      hide AddrOk, RandomOk, TriedOk, RefOk, TimesOk, NewIds, TriedIds, Place, SlotsBelow, Filled, NewOk, Position;
      ghost var p, t := Places(), Model();
      var info := mapInfo[nId];
      SlotsBelowEnds(p, t, nId);
      IdsNatural(t, nId);
      for bucket := 0 to NEW_BUCKET_COUNT
        invariant Model() == t.(newAt := Filled(vvNew), info := mapInfo)
        invariant Filled(vvNew) == t.newAt - SlotsBelow(t.newAt, nId, bucket)
        invariant mapInfo == t.info[nId := info.(refCount := info.refCount - |SlotsBelow(t.newAt, nId, bucket)|)]
      {
        var pos := Position(env, nKey, info.addr.service, true, bucket);
        PlacePos(env, nKey, info.addr.service, bucket);
        BucketStep(p, t, nId, bucket);
        FilledAt(vvNew, bucket, pos);
        if vvNew[bucket, pos] == nId {
          ClearSlot(vvNew, bucket, pos);
          mapInfo := mapInfo[nId := mapInfo[nId].(refCount := mapInfo[nId].refCount - 1)];
        }
      }
    }

    method MakeTried(nId: int)
      requires Valid() && IsNew(mapInfo, nId)
      modifies this, vvNew, vvTried
      ensures Places() == old(Places())
      ensures Model() == AddrOperations.MakeTried(old(Places()), old(Model()), nId)
    {
      hide AddrOk, RandomOk, TriedOk, RefOk, TimesOk, NewIds, TriedIds, Place, Filled, NewOk, Position,
           AddrTables.ClearNew, NewBucket, TriedBucket;
      ghost var p, t := Places(), Model();
      UnlinkKeeps(p, t, nId);
      LeaveNewBuckets(nId);
      nNew := nNew - 1;
      ghost var u := Model();
      assert mapInfo[nId].refCount == 0;

      var s := mapInfo[nId].addr.service;
      var nKBucket := TriedBucket(env, nKey, s);
      var nKBucketPos := Position(env, nKey, s, false, nKBucket);
      PlaceTried(env, nKey, s);
      ghost var k := Slot(nKBucket, nKBucketPos);
      FilledAt(vvTried, nKBucket, nKBucketPos);
      EvictSurvives(p, u, k, nId);
      if vvTried[nKBucket, nKBucketPos] != -1 {
        MoveToNew(nKBucket, nKBucketPos, {nId}, 1);
      }
      FilledAt(vvTried, nKBucket, nKBucketPos);
      assert vvTried[nKBucket, nKBucketPos] == -1;
      IdsNatural(t, nId);
      SetSlot(vvTried, nKBucket, nKBucketPos, nId);
      nTried := nTried + 1;
      mapInfo := mapInfo[nId := mapInfo[nId].(inTried := true)];
    }

    /** The part of MakeTried that evicts the tried entry in the way. */
    method MoveToNew(b: nat, i: nat, ghost limbo: set<int>, ghost uncounted: nat)
      requires Shape() && Between(Places(), Model(), limbo, uncounted)
      requires b < TRIED_BUCKET_COUNT && i < BUCKET_SIZE && vvTried[b, i] != -1
      modifies this, vvNew, vvTried
      ensures Slot(b, i) in old(Model()).triedAt && Places() == old(Places())
      ensures Model() == Evict(old(Places()), old(Model()), Slot(b, i), limbo, uncounted)
    {
      hide AddrOk, RandomOk, TriedOk, RefOk, TimesOk, NewIds, TriedIds, Place, Filled, NewOk, Position,
           AddrTables.ClearNew, NewBucket;
      ghost var p, t := Places(), Model();
      FilledAt(vvTried, b, i);
      var nIdEvict := vvTried[b, i];
      DemoteKeeps(p, t, Slot(b, i), nIdEvict, limbo, uncounted);
      assert nIdEvict in mapInfo;
      mapInfo := mapInfo[nIdEvict := mapInfo[nIdEvict].(inTried := false)];
      ClearSlot(vvTried, b, i);
      nTried := nTried - 1;

      var info := mapInfo[nIdEvict];
      var nUBucket := NewBucket(env, nKey, info.addr.service, info.source);
      var nUBucketPos := Position(env, nKey, info.addr.service, true, nUBucket);
      PlaceNew(env, nKey, info.addr.service, info.source);
      ClearNewKeeps(p, Model(), Slot(nUBucket, nUBucketPos), limbo + {nIdEvict}, uncounted + 1);
      ClearNew(nUBucket, nUBucketPos, limbo + {nIdEvict}, uncounted + 1);
      FilledAt(vvNew, nUBucket, nUBucketPos);
      assert vvNew[nUBucket, nUBucketPos] == -1;
      LimboCount(mapInfo, Filled(vvNew), limbo + {nIdEvict}, nIdEvict);
      mapInfo := mapInfo[nIdEvict := mapInfo[nIdEvict].(refCount := 1)];
      IdsNatural(t, nIdEvict);
      SetSlot(vvNew, nUBucket, nUBucketPos, nIdEvict);
      nNew := nNew + 1;
    }

    /** The id listed for a service whose entry has the same port, or -1. */
    method Find(s: Service) returns (nId: int)
      ensures nId == Lookup(Model(), s)
    {
      if s.ip !in mapAddr || mapAddr[s.ip] !in mapInfo { return -1; }
      nId := mapAddr[s.ip];
      if mapInfo[nId].addr.service != s { nId := -1; }
    }

    /** The search of Good for a bucket that holds the entry, from a random start.
        It always succeeds. */
    method FindNewBucket(nId: int, nRnd: nat) returns (nUBucket: int)
      requires Valid() && IsNew(mapInfo, nId)
      ensures 0 <= nUBucket < NEW_BUCKET_COUNT
      ensures vvNew[nUBucket, Position(env, nKey, mapInfo[nId].addr.service, true, nUBucket)] == nId
    {
      hide AddrOk, RandomOk, TriedOk, RefOk, TimesOk, NewIds, TriedIds, Place, NewOk, Position;
      ghost var p, t := Places(), Model();
      var s := mapInfo[nId].addr.service;
      IdsNatural(t, nId);
      nUBucket := -1;
      var n := 0;
      while n < NEW_BUCKET_COUNT
        invariant 0 <= n <= NEW_BUCKET_COUNT && nUBucket == -1
        invariant forall m | 0 <= m < n :: Misses(t, s, nId, env, nRnd, m)
      {
        var nB := (n + nRnd) % NEW_BUCKET_COUNT;
        var nBpos := Position(env, nKey, s, true, nB);
        FilledAt(vvNew, nB, nBpos);
        if vvNew[nB, nBpos] == nId {
          nUBucket := nB;
          return;
        }
        n := n + 1;
      }
      SearchHits(env, t, nId, nRnd);
      assert false;
    }

    method Good(s: Service, time: int, nRnd: nat)
      requires Valid() && time > 0
      modifies this, vvNew, vvTried
      ensures Valid() && Places() == old(Places())
      ensures Model() == AddrOperations.Good(Places(), old(Model()), s, time)
    {
      hide AddrOk, RandomOk, TriedOk, RefOk, TimesOk, NewIds, TriedIds, Place, NewOk, Position, Filled, AddrOperations.MakeTried;
      ghost var p, t := Places(), Model();
      GoodKeeps(p, t, s, time);
      nLastGood := time;
      var nId := Find(s);
      if nId == -1 { return; }
      mapInfo := mapInfo[nId := mapInfo[nId].(lastSuccess := time, lastTry := time, attempts := 0)];
      TweakKeeps(p, t.(lastGood := time), nId, mapInfo[nId], {}, 0);
      if mapInfo[nId].inTried { return; }
      HasRefs(p, Model(), nId);
      var nUBucket := FindNewBucket(nId, nRnd);
      MakeTried(nId);
    }

    /** The placing part of Add, for an entry that is to get a reference from source. */
    method AddReference(nId: int, source: NetAddr, now: int, ghost limbo: set<int>)
      requires Shape() && Between(Places(), Model(), limbo, 0) && IsNew(mapInfo, nId) && limbo <= {nId}
      requires mapInfo[nId].refCount == 0 <==> nId in limbo
      modifies this, vvNew
      ensures Places() == old(Places())
      ensures Model() == Settle(Places(), old(Model()), Places().NewSlot(old(mapInfo)[nId].addr.service, source), nId, now, limbo)
    {
      hide AddrOk, RandomOk, TriedOk, RefOk, TimesOk, NewIds, TriedIds, Place, NewOk, Position, Filled,
           AddrTables.ClearNew, AddrTables.Delete, NewBucket, RandomDefined;
      ghost var p, t := Places(), Model();
      var info := mapInfo[nId];
      var nUBucket := NewBucket(env, nKey, info.addr.service, source);
      var nUBucketPos := Position(env, nKey, info.addr.service, true, nUBucket);
      PlaceNew(env, nKey, info.addr.service, source);
      ghost var s := Slot(nUBucket, nUBucketPos);
      FilledAt(vvNew, nUBucket, nUBucketPos);
      OccupantKnown(p, t, s);
      IdsNatural(t, nId);
      var occupant := vvNew[nUBucket, nUBucketPos];
      if occupant != nId {
        var fInsert := occupant == -1;
        if !fInsert {
          if mapInfo[occupant].IsTerrible(now) || (mapInfo[occupant].refCount > 1 && info.refCount == 0) {
            fInsert := true;
          }
        }
        if fInsert {
          ClearNewKeeps(p, t, s, limbo, 0);
          ClearNew(nUBucket, nUBucketPos, limbo, 0);
          mapInfo := mapInfo[nId := mapInfo[nId].(refCount := mapInfo[nId].refCount + 1)];
          SetSlot(vvNew, nUBucket, nUBucketPos, nId);
        } else {
          if info.refCount == 0 {
            DeleteKeeps(p, t, nId, limbo, 0);
            Delete(nId, limbo, 0);
          }
        }
      }
    }

    /** Add, for an address that is already listed. */
    method AddKnown(nId: int, addr: Address, source: NetAddr, nTimePenalty: int, now: int, draw: nat)
      requires Valid() && nId in mapInfo
      modifies this, vvNew
      ensures Places() == old(Places())
      ensures var x := Refreshed(old(mapInfo)[nId], addr, nTimePenalty, now);
        var u := SetInfo(old(Model()), nId, x);
        && Consistent(Places(), u)
        && Model() == if WantsReference(x, addr, draw)
                      then Settle(Places(), u, Places().NewSlot(x.addr.service, source), nId, now, {}) else u
    {
      hide AddrOk, RandomOk, TriedOk, RefOk, TimesOk, NewIds, TriedIds, Place, NewOk, Position, Filled, Settle;
      ghost var p, t := Places(), Model();
      TimesKnown(t.info, nId);
      var fCurrentlyOnline := now - addr.time < 24 * 60 * 60;
      var nUpdateInterval := if fCurrentlyOnline then 60 * 60 else 24 * 60 * 60;
      var info := mapInfo[nId];
      if addr.time != 0 && (info.addr.time == 0 || info.addr.time < addr.time - nUpdateInterval - nTimePenalty) {
        info := info.(addr := info.addr.(time := Max(0, addr.time - nTimePenalty)));
      }
      info := info.(addr := info.addr.(services := info.addr.services + addr.services));
      mapInfo := mapInfo[nId := info];
      TweakKeeps(p, t, nId, info, {}, 0);
      if addr.time == 0 || (info.addr.time != 0 && addr.time <= info.addr.time) { return; }
      if info.inTried { return; }
      if info.refCount == NEW_BUCKETS_PER_ADDRESS { return; }
      var nFactor := 1;
      RefsKnown(mapInfo, Filled(vvNew), nId);
      for n := 0 to info.refCount
        invariant nFactor == Pow2(n)
      {
        nFactor := nFactor * 2;
      }
      if nFactor > 1 && draw % nFactor != 0 { return; }
      AddReference(nId, source, now, {});
    }

    method Add(addr: Address, source: NetAddr, penaltyIn: int, now: int, draw: nat) returns (fNew: bool)
      requires Valid()
      modifies this, vvNew
      ensures Valid() && Places() == old(Places())
      ensures (Model(), fNew) == AddrOperations.Add(env, Places(), old(Model()), addr, source, penaltyIn, now, draw)
    {
      hide AddrOk, RandomOk, TriedOk, RefOk, TimesOk, NewIds, TriedIds, Place, NewOk, Position, Filled, Settle, Refreshed, WantsReference;
      ghost var p, t := Places(), Model();
      AddKeeps(env, p, t, addr, source, penaltyIn, now, draw);
      if !env.routable(addr.service.ip) { return false; }
      var nTimePenalty := penaltyIn;
      if addr.service.ip == source { nTimePenalty := 0; }
      if addr.service.ip in mapAddr {
        fNew := false;
        ListedKnown(t, addr.service.ip);
        AddKnown(mapAddr[addr.service.ip], addr, source, nTimePenalty, now, draw);
      } else {
        CreateKeeps(p, t, addr, source);
        var nId := Create(addr, source);
        mapInfo := mapInfo[nId := mapInfo[nId].(addr := addr.(time := Max(0, addr.time - nTimePenalty)))];
        nNew := nNew + 1;
        fNew := true;
        ghost var u := AddrTables.Create(t, addr, source).0;
        TweakKeeps(p, u.(nNew := u.nNew + 1), nId, mapInfo[nId], {nId}, 0);
        AddReference(nId, source, now, {nId});
      }
    }

    method Attempt(s: Service, fCountFailure: bool, time: int)
      requires Valid() && time >= 0
      modifies this
      ensures Valid() && Places() == old(Places())
      ensures Model() == AddrOperations.Attempt(old(Model()), s, fCountFailure, time)
    {
      hide AddrOk, RandomOk, TriedOk, RefOk, TimesOk, NewIds, TriedIds, Place, NewOk, Filled;
      UpdateKeeps(Places(), Model(), s, fCountFailure, time, {});
      var nId := Find(s);
      if nId == -1 { return; }
      mapInfo := mapInfo[nId := mapInfo[nId].(lastTry := time)];
      if fCountFailure && mapInfo[nId].lastCountAttempt < nLastGood {
        var info := mapInfo[nId];
        mapInfo := mapInfo[nId := info.(lastCountAttempt := time, attempts := info.attempts + 1)];
        assert mapInfo == old(mapInfo)[nId := mapInfo[nId]];
      }
    }

    method Connected(s: Service, time: int)
      requires Valid()
      modifies this
      ensures Valid() && Places() == old(Places())
      ensures Model() == AddrOperations.Connected(old(Model()), s, time)
    {
      hide AddrOk, RandomOk, TriedOk, RefOk, TimesOk, NewIds, TriedIds, Place, NewOk, Filled;
      UpdateKeeps(Places(), Model(), s, false, time, {});
      var nId := Find(s);
      if nId == -1 { return; }
      var info := mapInfo[nId];
      if time - info.addr.time > 20 * 60 {
        mapInfo := mapInfo[nId := info.(addr := info.addr.(time := time))];
      }
    }

    method SetServices(s: Service, services: set<nat>)
      requires Valid()
      modifies this
      ensures Valid() && Places() == old(Places())
      ensures Model() == AddrOperations.SetServices(old(Model()), s, services)
    {
      hide AddrOk, RandomOk, TriedOk, RefOk, TimesOk, NewIds, TriedIds, Place, NewOk, Filled;
      UpdateKeeps(Places(), Model(), s, false, 0, services);
      var nId := Find(s);
      if nId == -1 { return; }
      var info := mapInfo[nId];
      mapInfo := mapInfo[nId := info.(addr := info.addr.(services := services))];
    }

    /** draws[n] is the random number drawn in round n. */
    method GetAddr(draws: seq<nat>, now: int) returns (vAddr: seq<Address>)
      requires Valid() && |draws| >= |vRandom|
      modifies this
      ensures Valid() && Places() == old(Places())
      ensures (Model(), vAddr) == AddrOperations.GetAddr(old(Model()), draws, now)
    {
      hide AddrOk, RandomOk, TriedOk, RefOk, TimesOk, NewIds, TriedIds, Place, NewOk, Filled, AddrTables.SwapRandom, At, Reordered,
           Shareable, RandomDefined, Gather, DistinctIps;
      ghost var t := Model();
      GetAddrSound(Places(), t, draws, now);
      var nNodes := GETADDR_MAX_PCT * |vRandom| / 100;
      if nNodes > GETADDR_MAX { nNodes := GETADDR_MAX; }
      vAddr := [];
      var n := 0;
      while n < |vRandom|
        invariant 0 <= n <= |vRandom| == |old(vRandom)|
        invariant nKey == old(nKey) && RandomOk(mapInfo, vRandom)
        invariant Gather(Model(), n, vAddr, nNodes, draws, now) == AddrOperations.GetAddr(t, draws, now)
      {
        if |vAddr| >= nNodes { break; }
        var nRndPos := draws[n] % (|vRandom| - n) + n;
        SwapOk(Model(), n, nRndPos);
        GatherStep(Model(), n, vAddr, nNodes, draws, now);
        SwapRandom(n, nRndPos);
        AtKnown(Model(), n);
        assert vRandom[n] in mapInfo;
        var ai := mapInfo[vRandom[n]];
        if !ai.IsTerrible(now) {
          vAddr := vAddr + [ai.addr];
        }
        n := n + 1;
      }
      GatherStop(Model(), n, vAddr, nNodes, draws, now);
    }

    /** The last part of Serialize: for each new bucket its size and its indexes. */
    method SerializeBuckets(mapUnkIds: map<int, int>, ghost ids: seq<int>) returns (s: seq<Item>)
      requires Valid() && Numbered(mapUnkIds, ids) && forall id :: id in ids <==> IsNew(mapInfo, id)
      ensures s == Buckets(Filled(vvNew), ids, 0)
    {
      hide AddrOk, RandomOk, TriedOk, RefOk, TimesOk, NewIds, TriedIds, Place, NewOk, Filled, Buckets, BucketItems, IndexOf, Numbered;
      ghost var newAt := Filled(vvNew);
      s := [];
      for bucket := 0 to NEW_BUCKET_COUNT
        invariant s + Buckets(newAt, ids, bucket) == Buckets(newAt, ids, 0)
      {
        var nSize := 0;
        for i := 0 to BUCKET_SIZE
          invariant nSize + |BucketItems(newAt, ids, bucket, i)| == |BucketItems(newAt, ids, bucket, 0)|
        {
          FilledAt(vvNew, bucket, i);
          BucketItemsNext(newAt, ids, bucket, i);
          if vvNew[bucket, i] != -1 { nSize := nSize + 1; }
        }
        BucketItemsNext(newAt, ids, bucket, BUCKET_SIZE);
        BucketsNext(newAt, ids, bucket);
        s := s + [IntItem(nSize)];
        ghost var items, later := BucketItems(newAt, ids, bucket, 0), Buckets(newAt, ids, bucket + 1);
        assert s + (items + later) == Buckets(newAt, ids, 0);
        for i := 0 to BUCKET_SIZE
          invariant s + (BucketItems(newAt, ids, bucket, i) + later) == Buckets(newAt, ids, 0)
        {
          FilledAt(vvNew, bucket, i);
          BucketItemsNext(newAt, ids, bucket, i);
          if vvNew[bucket, i] != -1 {
            NumberKnown(Places(), Model(), mapUnkIds, ids, Slot(bucket, i));
            var nIndex := mapUnkIds[vvNew[bucket, i]];
            s := s + [IntItem(nIndex)];
          }
        }
      }
      BucketsNext(newAt, ids, NEW_BUCKET_COUNT);
    }

    method Serialize() returns (s: seq<Item>)
      requires Valid()
      ensures s == Save(Model())
    {
      hide AddrOk, RandomOk, TriedOk, RefOk, TimesOk, NewIds, TriedIds, Place, NewOk, Filled, Records, Buckets, BucketItems, Ids, Known, IndexOf;
      ghost var t := Model();
      s := [ByteItem(1), ByteItem(32), KeyItem(nKey), IntItem(nNew), IntItem(nTried), IntItem(FlipBit30(NEW_BUCKET_COUNT))];
      AddrRoundTrip.Lists(Places(), t);
      ghost var h := s;
      var mapUnkIds: map<int, int> := map[];
      var nIds := 0;
      IdsStart(mapInfo, false);
      IdsStart(mapInfo, true);
      for n := 0 to nIdCount
        invariant nIds == |Ids(mapInfo, n, false)| && Known(mapInfo, Ids(mapInfo, n, false))
        invariant s == h + Records(mapInfo, Ids(mapInfo, n, false))
        invariant Numbered(mapUnkIds, Ids(mapInfo, n, false))
      {
        IdsNext(mapInfo, n, false);
        if n in mapInfo {
          NumberedNext(mapUnkIds, mapInfo, n);
          mapUnkIds := mapUnkIds[n := nIds];
          if mapInfo[n].refCount != 0 {
            IdsRoom(mapInfo, n, nIdCount, false);
            assert nIds != nNew;
            s := s + [RecordItem(ToRecord(mapInfo[n]))];
            nIds := nIds + 1;
          }
        }
      }
      h := s;
      nIds := 0;
      for n := 0 to nIdCount
        invariant nIds == |Ids(mapInfo, n, true)| && Known(mapInfo, Ids(mapInfo, n, true))
        invariant s == h + Records(mapInfo, Ids(mapInfo, n, true))
      {
        IdsNext(mapInfo, n, true);
        if n in mapInfo {
          if mapInfo[n].inTried {
            IdsRoom(mapInfo, n, nIdCount, true);
            assert nIds != nTried;
            s := s + [RecordItem(ToRecord(mapInfo[n]))];
            nIds := nIds + 1;
          }
        }
      }
      var buckets := SerializeBuckets(mapUnkIds, Ids(mapInfo, nIdCount, false));
      s := s + buckets;
    }

    method Clear(key: nat)
      requires Shape()
      modifies this, vvNew, vvTried
      ensures Model() == EmptyTables(key)
    {
      vRandom, nKey := [], key;
      Wipe(vvNew);
      Wipe(vvTried);
      nIdCount, nTried, nNew, nLastGood := 0, 0, 0, 1;
      mapInfo, mapAddr := map[], map[];
    }

    method UnserializeNew(f: Format, s: seq<Item>) returns (ok: bool, rest: seq<Item>)
      requires Shape()
      modifies this, vvNew
      ensures nKey == old(nKey) && nNew == old(nNew)
      ensures var r := LoadNew(Places(), f, old(Model()), 0, s); ok == r.Loaded? && (ok ==> Model() == r.t && rest == r.rest)
    {
      hide Place, Filled, Position, NewBucket;
      ghost var p, r := Places(), LoadNew(Places(), f, Model(), 0, s);
      rest, ok := s, true;
      var n := 0;
      while n < nNew
        invariant 0 <= n && nKey == old(nKey) && nNew == old(nNew)
        invariant LoadNew(p, f, Model(), n, rest) == r
        decreases nNew - n
      {
        if rest == [] || !rest[0].RecordItem? { ok := false; return; }
        var info := FromRecord(rest[0].r);
        rest := rest[1..];
        mapAddr := mapAddr[info.Ip() := n];
        info := info.(randomPos := |vRandom|);
        vRandom := vRandom + [n];
        if f.version != 1 || f.nUBuckets != NEW_BUCKET_COUNT {
          var nUBucket := NewBucket(env, nKey, info.addr.service, info.source);
          var nUBucketPos := Position(env, nKey, info.addr.service, true, nUBucket);
          PlaceNew(env, nKey, info.addr.service, info.source);
          FilledAt(vvNew, nUBucket, nUBucketPos);
          if vvNew[nUBucket, nUBucketPos] == -1 {
            SetSlot(vvNew, nUBucket, nUBucketPos, n);
            info := info.(refCount := info.refCount + 1);
          }
        }
        mapInfo := mapInfo[n := info];
        n := n + 1;
      }
    }

    /** One round of the loop that loads the tried entries. */
    method EnterTried(r: Record) returns (lost: bool)
      requires Shape() && nIdCount >= 0
      modifies this, vvTried
      ensures nKey == old(nKey) && nIdCount >= 0 && (lost <==> nIdCount == old(nIdCount))
      ensures Model() == LoadTriedEntry(Places(), old(Model()), r)
    {
      hide Place, Filled, Position, TriedBucket, FromRecord;
      var info := FromRecord(r);
      var nKBucket := TriedBucket(env, nKey, info.addr.service);
      var nKBucketPos := Position(env, nKey, info.addr.service, false, nKBucket);
      PlaceTried(env, nKey, info.addr.service);
      FilledAt(vvTried, nKBucket, nKBucketPos);
      lost := vvTried[nKBucket, nKBucketPos] != -1;
      if !lost {
        info := info.(randomPos := |vRandom|, inTried := true);
        vRandom := vRandom + [nIdCount];
        mapInfo := mapInfo[nIdCount := info];
        mapAddr := mapAddr[info.Ip() := nIdCount];
        SetSlot(vvTried, nKBucket, nKBucketPos, nIdCount);
        nIdCount := nIdCount + 1;
      }
    }

    method UnserializeTried(s: seq<Item>) returns (ok: bool, rest: seq<Item>)
      requires Shape() && nIdCount >= 0
      modifies this, vvTried
      ensures nKey == old(nKey)
      ensures var r := LoadTried(Places(), old(Model()), 0, 0, s); ok == r.Loaded? && (ok ==> Model() == r.t && rest == r.rest)
    {
      hide Place, Filled, AppendEntry;
      ghost var p, r := Places(), LoadTried(Places(), Model(), 0, 0, s);
      rest, ok := s, true;
      var nLost, n := 0, 0;
      while n < nTried
        invariant 0 <= n && nKey == old(nKey) && nIdCount >= 0
        invariant LoadTried(p, Model(), n, nLost, rest) == r
        decreases nTried - n
      {
        if rest == [] || !rest[0].RecordItem? { ok := false; return; }
        TriedEntryCount(p, Model(), rest[0].r);
        var lost := EnterTried(rest[0].r);
        rest := rest[1..];
        if lost { nLost := nLost + 1; }
        n := n + 1;
      }
      nTried := nTried - nLost;
    }

    method UnserializeBuckets(f: Format, s: seq<Item>) returns (ok: bool, rest: seq<Item>)
      requires Shape()
      modifies this, vvNew
      ensures nKey == old(nKey) && nNew == old(nNew)
      ensures var r := LoadBuckets(Places(), f, old(Model()), 0, s); ok == r.Loaded? && (ok ==> Model() == r.t && rest == r.rest)
    {
      hide Place, Filled, Position, LoadBucket, LoadReference, Link;
      ghost var p, r := Places(), LoadBuckets(Places(), f, Model(), 0, s);
      rest, ok := s, true;
      var bucket := 0;
      while bucket < f.nUBuckets
        invariant 0 <= bucket && nKey == old(nKey) && nNew == old(nNew)
        invariant LoadBuckets(p, f, Model(), bucket, rest) == r
        decreases f.nUBuckets - bucket
      {
        if rest == [] || !rest[0].IntItem? { ok := false; return; }
        var nSize := rest[0].n;
        rest := rest[1..];
        ok, rest := UnserializeBucket(f, bucket, nSize, rest);
        if !ok { return; }
        bucket := bucket + 1;
      }
    }

    method UnserializeBucket(f: Format, bucket: nat, nSize: int, s: seq<Item>) returns (ok: bool, rest: seq<Item>)
      requires Shape() && (f.Usable() ==> bucket < NEW_BUCKET_COUNT)
      modifies this, vvNew
      ensures nKey == old(nKey) && nNew == old(nNew)
      ensures var r := LoadBucket(Places(), f, old(Model()), bucket, nSize, s); ok == r.Loaded? && (ok ==> Model() == r.t && rest == r.rest)
    {
      hide Place, Filled, Position;
      ghost var p, r := Places(), LoadBucket(Places(), f, Model(), bucket, nSize, s);
      rest, ok := s, true;
      var n := 0;
      while n < nSize
        invariant 0 <= n && nKey == old(nKey) && nNew == old(nNew)
        invariant LoadBucket(p, f, Model(), bucket, nSize - n, rest) == r
        decreases nSize - n
      {
        if rest == [] || !rest[0].IntItem? { ok := false; return; }
        var nIndex := rest[0].n;
        rest := rest[1..];
        if 0 <= nIndex < nNew && nIndex in mapInfo {
          var info := mapInfo[nIndex];
          var nUBucketPos := Position(env, nKey, info.addr.service, true, bucket);
          PlacePos(env, nKey, info.addr.service, bucket);
          if f.version == 1 && f.nUBuckets == NEW_BUCKET_COUNT {
            FilledAt(vvNew, bucket, nUBucketPos);
            if vvNew[bucket, nUBucketPos] == -1 && info.refCount < NEW_BUCKETS_PER_ADDRESS {
              mapInfo := mapInfo[nIndex := info.(refCount := info.refCount + 1)];
              SetSlot(vvNew, bucket, nUBucketPos, nIndex);
            }
          }
        }
        n := n + 1;
      }
    }

    /** The loop that drops the untried entries left without a reference. */
    method PruneUnreferenced(lo: int)
      requires Shape() && RandomOk(mapInfo, vRandom)
      modifies this
      ensures nKey == old(nKey)
      ensures Model() == Prune(old(Model()), lo)
    {
      hide Filled, RandomOk, RandomDefined, AddrTables.Delete;
      ghost var r := Prune(Model(), lo);
      var n := lo;
      while n < nIdCount
        invariant RandomOk(mapInfo, vRandom) && nKey == old(nKey)
        invariant Prune(Model(), n) == r
        decreases nIdCount - n
      {
        if n in mapInfo && !mapInfo[n].inTried && mapInfo[n].refCount == 0 {
          DeleteRandom(Model(), n);
          DeleteEntry(n);
        }
        n := n + 1;
      }
    }

    /** Delete as loading uses it, where only the random order is known to be sound. */
    method DeleteEntry(nId: int)
      requires RandomOk(mapInfo, vRandom) && nId in mapInfo
      modifies this
      ensures RandomDefined(old(Model())) && 0 <= old(mapInfo)[nId].randomPos < |old(vRandom)|
      ensures Model() == AddrTables.Delete(old(Model()), nId) && nKey == old(nKey)
    {
      hide Filled, RandomOk, RandomDefined, AddrTables.SwapRandom;
      ghost var t := Model();
      RandomFacts(t);
      PositionKnown(t, nId);
      var info := mapInfo[nId];
      SwapOk(t, info.randomPos, |vRandom| - 1);
      SwapRandom(info.randomPos, |vRandom| - 1);
      vRandom := vRandom[..|vRandom| - 1];
      mapAddr := mapAddr - {info.Ip()};
      mapInfo := mapInfo - {nId};
      nNew := nNew - 1;
    }

    method Unserialize(s: seq<Item>) returns (ok: bool)
      requires Shape() && CountNatural(s)
      modifies this, vvNew, vvTried
      ensures var r := Load(env, s); ok == r.Loaded? && (ok ==> Model() == r.t)
    {
      hide Place, Filled, LoadNew, LoadTried, LoadBuckets, Prune, RandomOk, Indexed;
      if !GoodHeader(s) { return false; }
      Clear(s[2].key);
      nNew, nTried := s[3].n, s[4].n;
      var f := Format(s[0].b, if s[0].b != 0 then FlipBit30(s[5].n) else s[5].n);
      ghost var p, t0 := Places(), Model();
      EmptyIndexed(t0);
      LoadNewIndexed(p, f, t0, 0, s[6..]);
      AfterNewIndexed(p, f, t0, s[6..]);
      var rest: seq<Item>;
      ok, rest := UnserializeNew(f, s[6..]);
      if !ok { return; }
      nIdCount := nNew;
      LoadTriedIndexed(p, Model(), 0, 0, rest);
      ok, rest := UnserializeTried(rest);
      if !ok { return; }
      LoadBucketsIndexed(p, f, Model(), 0, rest);
      ok, rest := UnserializeBuckets(f, rest);
      if !ok { return; }
      IndexedRandom(Model());
      PruneUnreferenced(0);
    }
  }

  /** The positions of id in the buckets before b. */
  ghost function SlotsBelow(newAt: map<Slot, int>, id: int, b: int): set<Slot> {
    set s | s in newAt && Holds(newAt, s, id) && s.bucket < b
  }

  /** Bucket b of the new table holds id at its hashed position. */
  ghost predicate HeldIn(t: Tables, s: Service, id: int, e: Env, b: nat) {
    Holds(t.newAt, Slot(b, Position(e, t.key, s, true, b)), id)
  }

  ghost predicate Misses(t: Tables, s: Service, id: int, e: Env, nRnd: nat, m: nat) {
    !HeldIn(t, s, id, e, (m + nRnd) % NEW_BUCKET_COUNT)
  }

  /** A search through all buckets from any start meets one that holds the entry. */
  lemma SearchHits(e: Env, t: Tables, id: int, nRnd: nat)
    requires Consistent(Place(e, t.key), t) && IsNew(t.info, id)
    ensures exists m :: 0 <= m < NEW_BUCKET_COUNT && !Misses(t, t.info[id].addr.service, id, e, nRnd, m)
  {
    hide AddrOk, RandomOk, TriedOk, RefOk, TimesOk, NewIds, TriedIds, NewOk, Position, Place;
    var p, s := Place(e, t.key), t.info[id].addr.service;
    BucketFound(p, t, id);
    var b :| 0 <= b < NEW_BUCKET_COUNT && Holds(t.newAt, Slot(b, p.newPos(s, b)), id);
    PlacePos(e, t.key, s, b);
    var m := (b - nRnd) % NEW_BUCKET_COUNT;
    assert (m + nRnd) % NEW_BUCKET_COUNT == b;
    assert !Misses(t, s, id, e, nRnd, m);
  }

  lemma SlotsBelowEnds(p: Placement, t: Tables, id: int)
    requires NewOk(p, t.info, t.newAt)
    ensures SlotsBelow(t.newAt, id, 0) == {}
    ensures SlotsBelow(t.newAt, id, NEW_BUCKET_COUNT) == RefSlots(t.newAt, id)
  {
    forall s | s in RefSlots(t.newAt, id) ensures s.bucket < NEW_BUCKET_COUNT {
      assert MaySitInNew(p, t.info, s, t.newAt[s]);
    }
  }

  lemma AtKnown(t: Tables, n: nat)
    requires RandomOk(t.info, t.random) && n < |t.random|
    ensures t.random[n] in t.info && At(t, n) == t.info[t.random[n]]
  {
    assert SitsAt(t.info, t.random[n], n);
  }

  lemma GatherStep(t: Tables, n: nat, got: seq<Address>, limit: nat, draws: seq<nat>, now: int)
    requires RandomOk(t.info, t.random) && n < |t.random| && n < |draws| && |got| < limit
    ensures var j := draws[n] % (|t.random| - n) + n;
      && j < |t.random| && RandomDefined(t)
      && var u := SwapRandom(t, n, j);
        && RandomOk(u.info, u.random) && n < |u.random|
        && Gather(t, n, got, limit, draws, now) ==
           Gather(u, n + 1, if At(u, n).IsTerrible(now) then got else got + [At(u, n).addr], limit, draws, now)
  {
    hide RandomOk, SwapRandom, At, Info.IsTerrible, RandomDefined;
    var j := draws[n] % (|t.random| - n) + n;
    SwapOk(t, n, j);
  }

  lemma GatherStop(t: Tables, n: nat, got: seq<Address>, limit: nat, draws: seq<nat>, now: int)
    requires RandomOk(t.info, t.random) && (n >= |t.random| || |got| >= limit)
    ensures Gather(t, n, got, limit, draws, now) == (t, got)
  {
  }

  lemma IdsStart(info: map<int, Info>, tried: bool)
    ensures Ids(info, 0, tried) == [] && Known(info, []) && Records(info, []) == []
  {
  }

  lemma IdsNext(info: map<int, Info>, n: nat, tried: bool)
    ensures Known(info, Ids(info, n, tried)) && Known(info, Ids(info, n + 1, tried))
    ensures Selected(info, n, tried) ==>
      && Ids(info, n + 1, tried) == Ids(info, n, tried) + [n]
      && Records(info, Ids(info, n + 1, tried)) == Records(info, Ids(info, n, tried)) + [RecordItem(ToRecord(info[n]))]
    ensures !Selected(info, n, tried) ==> Ids(info, n + 1, tried) == Ids(info, n, tried)
  {
    IdsExact(info, n, tried);
    IdsExact(info, n + 1, tried);
  }

  lemma {:induction false} IdsRoom(info: map<int, Info>, n: nat, m: nat, tried: bool)
    requires n < m && Selected(info, n, tried)
    ensures |Ids(info, n, tried)| < |Ids(info, m, tried)|
    decreases m
  {
    if n + 1 < m { IdsRoom(info, n, m - 1, tried); }
  }

  /** The numbers given to the ids written so far. */
  ghost predicate Numbered(unk: map<int, int>, ids: seq<int>) {
    forall i | 0 <= i < |ids| :: NumberIs(unk, ids[i], IndexOf(ids, ids[i]))
  }

  ghost predicate NumberIs(unk: map<int, int>, id: int, k: int) {
    id in unk && unk[id] == k
  }

  lemma NumberedNext(unk: map<int, int>, info: map<int, Info>, n: nat)
    requires Numbered(unk, Ids(info, n, false))
    ensures Numbered(unk[n := |Ids(info, n, false)|], Ids(info, n + 1, false))
  {
    IdsExact(info, n, false);
    var ids, ids2 := Ids(info, n, false), Ids(info, n + 1, false);
    forall i | 0 <= i < |ids2| ensures NumberIs(unk[n := |ids|], ids2[i], IndexOf(ids2, ids2[i])) {
      if i < |ids| {
        assert ids2[i] == ids[i] && ids[i] in ids && NumberIs(unk, ids[i], IndexOf(ids, ids[i]));
        AddrRoundTrip.IndexOfPrefix(ids, ids2[|ids|..], ids[i]);
        assert ids2 == ids + ids2[|ids|..];
      } else {
        IndexOfLast(ids, n);
      }
    }
  }

  lemma {:induction false} IndexOfLast(ids: seq<int>, id: int)
    requires id !in ids
    ensures IndexOf(ids + [id], id) == |ids|
  {
    if ids != [] {
      assert (ids + [id])[1..] == ids[1..] + [id];
      IndexOfLast(ids[1..], id);
    }
  }

  /** A referenced position holds an id that has a number. */
  lemma NumberKnown(p: Placement, t: Tables, unk: map<int, int>, ids: seq<int>, s: Slot)
    requires NewOk(p, t.info, t.newAt) && s in t.newAt
    requires forall id :: id in ids <==> IsNew(t.info, id)
    requires Numbered(unk, ids)
    ensures NumberIs(unk, t.newAt[s], IndexOf(ids, t.newAt[s]))
  {
    var id := t.newAt[s];
    assert MaySitInNew(p, t.info, s, id);
    assert id in ids;
    var i :| 0 <= i < |ids| && ids[i] == id;
  }

  lemma BucketItemsNext(newAt: map<Slot, int>, ids: seq<int>, b: nat, i: nat)
    ensures i >= BUCKET_SIZE ==> BucketItems(newAt, ids, b, i) == []
    ensures i < BUCKET_SIZE && Slot(b, i) !in newAt ==> BucketItems(newAt, ids, b, i) == BucketItems(newAt, ids, b, i + 1)
    ensures i < BUCKET_SIZE && Slot(b, i) in newAt ==>
      BucketItems(newAt, ids, b, i) == [IntItem(IndexOf(ids, newAt[Slot(b, i)]))] + BucketItems(newAt, ids, b, i + 1)
  {
  }

  lemma BucketsNext(newAt: map<Slot, int>, ids: seq<int>, b: nat)
    ensures b >= NEW_BUCKET_COUNT ==> Buckets(newAt, ids, b) == []
    ensures b < NEW_BUCKET_COUNT ==>
      Buckets(newAt, ids, b) == [IntItem(|BucketItems(newAt, ids, b, 0)|)] + BucketItems(newAt, ids, b, 0) + Buckets(newAt, ids, b + 1)
  {
  }

  lemma TriedEntryCount(p: Placement, t: Tables, r: Record)
    ensures LoadTriedEntry(p, t, r).nTried == t.nTried
  {
  }

  lemma IdsNatural(t: Tables, id: int)
    requires AddrOk(t.idCount, t.info, t.addrId) && id in t.info
    ensures id >= 0
  {
  }

  lemma PlaceTried(e: Env, key: nat, s: Service)
    ensures var b := TriedBucket(e, key, s); Place(e, key).triedSlot(s) == Slot(b, Position(e, key, s, false, b))
  {
  }

  lemma PlaceNew(e: Env, key: nat, s: Service, src: NetAddr)
    ensures var b := NewBucket(e, key, s, src); Place(e, key).NewSlot(s, src) == Slot(b, Position(e, key, s, true, b))
  {
  }

  lemma PlacePos(e: Env, key: nat, s: Service, b: nat)
    ensures Place(e, key).newPos(s, b) == Position(e, key, s, true, b)
  {
  }

  lemma BucketStep(p: Placement, t: Tables, id: int, b: nat)
    requires NewOk(p, t.info, t.newAt) && id in t.info
    ensures var s := Slot(b, p.newPos(t.info[id].addr.service, b));
      var left := t.newAt - SlotsBelow(t.newAt, id, b);
      && t.newAt - SlotsBelow(t.newAt, id, b + 1) == (if Holds(left, s, id) then left - {s} else left)
      && |SlotsBelow(t.newAt, id, b + 1)| == |SlotsBelow(t.newAt, id, b)| + (if Holds(left, s, id) then 1 else 0)
  {
    var s := Slot(b, p.newPos(t.info[id].addr.service, b));
    forall q | q in SlotsBelow(t.newAt, id, b + 1) && q.bucket == b ensures q == s {
      assert MaySitInNew(p, t.info, q, t.newAt[q]);
    }
    assert s !in SlotsBelow(t.newAt, id, b);
    if Holds(t.newAt, s, id) {
      assert SlotsBelow(t.newAt, id, b + 1) == SlotsBelow(t.newAt, id, b) + {s};
    } else {
      assert SlotsBelow(t.newAt, id, b + 1) == SlotsBelow(t.newAt, id, b);
    }
  }

  ghost predicate OccupantReady(t: Tables, s: Slot) {
    RandomDefined(t) && (s in t.newAt ==> t.newAt[s] in t.info && 0 <= t.info[t.newAt[s]].randomPos < |t.random|)
  }

  ghost predicate LimboReady(t: Tables, id: int) {
    RandomDefined(t) && id in t.info && 0 <= t.info[id].randomPos < |t.random|
  }
}
