/** What the operations of the address manager leave in the tables, told from the tables before
    and after, and how far one group of network addresses reaches. */
module AddrEffects {
  import opened AddrTables
  import opened AddrOperations
  import opened AddrTheorems
  import opened Powers

  // Entries other than the one an operation is about

  /** Entries but id are kept, up to their place in the random order, and none are added; if
      position s was taken, its occupant lost a reference, and is gone if that was the last. */
  ghost predicate OthersKept(t: Tables, u: Tables, id: int, s: Slot, taken: bool) {
    && u.info.Keys <= t.info.Keys + {id}
    && (forall k | k in t.info && k != id :: if taken && Holds(t.newAt, s, k) then Reduced(t, u, k) else Kept(t, u, k))
  }

  ghost predicate Kept(t: Tables, u: Tables, k: int)
    requires k in t.info
  {
    k in u.info && u.info[k] == t.info[k].(randomPos := u.info[k].randomPos)
  }

  ghost predicate Reduced(t: Tables, u: Tables, k: int)
    requires k in t.info
  {
    && (k in u.info <==> t.info[k].refCount > 1)
    && (k in u.info ==> u.info[k] == t.info[k].(refCount := t.info[k].refCount - 1, randomPos := u.info[k].randomPos))
  }

  /** What an operation about an entry and at most one new position does not touch. */
  ghost predicate RestKept(t: Tables, u: Tables) {
    u.key == t.key && u.triedAt == t.triedAt && u.nTried == t.nTried && u.lastGood == t.lastGood
  }

  /** An entry that takes a position gains one reference there, at the cost of the occupant. */
  lemma SettleTakes(p: Placement, t: Tables, s: Slot, id: int, now: int, limbo: set<int>)
    requires Between(p, t, limbo, 0) && IsNew(t.info, id) && !Holds(t.newAt, s, id)
    requires (s in t.newAt ==> t.newAt[s] in t.info) && MayTake(t, s, id, now)
    ensures var u := Settle(p, t, s, id, now, limbo);
      && u.newAt == t.newAt[s := id] && RestKept(t, u) && u.idCount == t.idCount
      && id in u.info
      && u.info[id] == t.info[id].(refCount := t.info[id].refCount + 1, randomPos := u.info[id].randomPos)
      && OthersKept(t, u, id, s, true)
  {
    hide AddrOk, RandomOk, NewOk, TriedOk, RefOk, TimesOk, NewIds, TriedIds, RandomDefined, SwapRandom, ClearNew, Delete;
    OccupantKnown(p, t, s);
    ClearNewKeeps(p, t, s, limbo, 0);
    var c := ClearNew(t, s);
    assert (t.newAt - {s})[s := id] == t.newAt[s := id];
    forall k | k in t.info && k != id ensures if Holds(t.newAt, s, k) then Reduced(t, Link(c, s, id), k) else Kept(t, Link(c, s, id), k) {
    }
  }

  // Add, for a known address

  /** The time an entry shows after an announcement: it advances only when the announcement is
      newer by more than the interval and the penalty. */
  function RenewedTime(old_: int, announced: int, penalty: int, now: int): int {
    var interval := if now < announced + 24 * 60 * 60 then 60 * 60 else 24 * 60 * 60;
    if announced == 0 || (old_ != 0 && announced <= old_ + interval + penalty) then old_
    else if announced < penalty then 0 else announced - penalty
  }

  /** Whether the position for this source is free for a known entry: empty, or held by another
      entry that is terrible. */
  ghost predicate FreeFor(t: Tables, s: Slot, id: int, now: int) {
    s in t.newAt ==> t.newAt[s] != id && t.newAt[s] in t.info && t.info[t.newAt[s]].IsTerrible(now)
  }

  /** Whether a known entry gains a reference: it is untried, has fewer than eight, shows an older time
      than the announcement, is lucky once in two to the number of its references, and finds room. */
  ghost predicate Gains(t: Tables, s: Slot, id: int, time: int, announced: int, draw: nat, now: int)
    requires id in t.info && t.info[id].refCount >= 0
  {
    var x := t.info[id];
    && !x.inTried && x.refCount < NEW_BUCKETS_PER_ADDRESS
    && announced != 0 && (time == 0 || time < announced)
    && draw % Pow2(x.refCount) == 0
    && FreeFor(t, s, id, now)
  }

  /** Hearing of a known address again adds its services, renews its time, and gains it at most one
      reference; only the occupant of that position loses one. */
  ghost predicate Reheard(p: Placement, t: Tables, u: Tables, id: int, addr: Address, source: NetAddr, penalty: int, now: int, draw: nat)
    requires id in t.info && t.info[id].refCount >= 0
  {
    var x := t.info[id];
    var time := RenewedTime(x.addr.time, addr.time, penalty, now);
    var s := p.NewSlot(x.addr.service, source);
    var gains := Gains(t, s, id, time, addr.time, draw, now);
    && id in u.info
    && u.info[id] == x.(addr := Address(x.addr.service, x.addr.services + addr.services, time),
                        refCount := x.refCount + (if gains then 1 else 0), randomPos := u.info[id].randomPos)
    && u.newAt == (if gains then t.newAt[s := id] else t.newAt)
    && OthersKept(t, u, id, s, gains) && RestKept(t, u) && u.idCount == t.idCount
  }

  lemma KnownRefs(p: Placement, t: Tables, id: int)
    requires Consistent(p, t) && id in t.info
    ensures 0 <= t.info[id].refCount <= NEW_BUCKETS_PER_ADDRESS && (!t.info[id].inTried ==> t.info[id].refCount >= 1)
  {
    hide AddrOk, RandomOk, NewOk, TriedOk, TimesOk, NewIds, TriedIds;
  }

  lemma AddKnownEffect(e: Env, p: Placement, t: Tables, addr: Address, source: NetAddr, penaltyIn: int, now: int, draw: nat)
    requires p.InRange() && Consistent(p, t) && e.routable(addr.service.ip) && addr.service.ip in t.addrId
    ensures var (u, isNew) := Add(e, p, t, addr, source, penaltyIn, now, draw);
      var id := t.addrId[addr.service.ip];
      && !isNew && id in t.info && t.info[id].refCount >= 0
      && Reheard(p, t, u, id, addr, source, if addr.service.ip == source then 0 else penaltyIn, now, draw)
  {
    hide AddrOk, RandomOk, NewOk, TriedOk, RefOk, TimesOk, NewIds, TriedIds, Settle, OthersKept;
    var penalty := if addr.service.ip == source then 0 else penaltyIn;
    var id := t.addrId[addr.service.ip];
    ListedKnown(t, addr.service.ip);
    KnownRefs(p, t, id);
    TimesKnown(t.info, id);
    var x := Refreshed(t.info[id], addr, penalty, now);
    TweakKeeps(p, t, id, x, {}, 0);
    var v, s := SetInfo(t, id, x), p.NewSlot(x.addr.service, source);
    OccupantKnown(p, t, s);
    OccupantKnown(p, v, s);
    NothingTaken(t, v, id, s);
    if WantsReference(x, addr, draw) {
      if !Holds(t.newAt, s, id) && MayTake(v, s, id, now) {
        SettleTakes(p, v, s, id, now, {});
        OthersFrom(t, v, Settle(p, v, s, id, now, {}), id, s);
      } else {
        SettleLeaves(p, v, s, id, now);
      }
    }
  }

  lemma SettleLeaves(p: Placement, t: Tables, s: Slot, id: int, now: int)
    requires Consistent(p, t) && IsNew(t.info, id) && (s in t.newAt ==> t.newAt[s] in t.info)
    requires Holds(t.newAt, s, id) || !MayTake(t, s, id, now)
    ensures Settle(p, t, s, id, now, {}) == t
  {
    hide AddrOk, RandomOk, NewOk, TriedOk, TimesOk, NewIds, TriedIds, RandomDefined, SwapRandom, ClearNew, Delete;
    KnownRefs(p, t, id);
  }

  lemma NothingTaken(t: Tables, v: Tables, id: int, s: Slot)
    requires id in t.info && id in v.info && v.info == t.info[id := v.info[id]]
    ensures OthersKept(t, v, id, s, false)
  {
  }

  lemma OthersFrom(t: Tables, v: Tables, u: Tables, id: int, s: Slot)
    requires v.info.Keys == t.info.Keys && v.newAt == t.newAt && OthersKept(v, u, id, s, true)
    requires forall k | k in t.info && k != id :: v.info[k] == t.info[k]
    ensures OthersKept(t, u, id, s, true)
  {
    forall k | k in t.info && k != id ensures if Holds(t.newAt, s, k) then Reduced(t, u, k) else Kept(t, u, k) {
      assert if Holds(v.newAt, s, k) then Reduced(v, u, k) else Kept(v, u, k);
    }
  }

  // Add, for an unknown address

  /** An unknown address that finds a place has a fresh entry with one reference, and only the occupant
      of that position loses one. */
  lemma AddNewEffect(e: Env, p: Placement, t: Tables, addr: Address, source: NetAddr, penaltyIn: int, now: int, draw: nat)
    requires p.InRange() && Consistent(p, t) && e.routable(addr.service.ip) && addr.service.ip !in t.addrId
    requires PositionYields(p, t, p.NewSlot(addr.service, source), now)
    ensures var (u, isNew) := Add(e, p, t, addr, source, penaltyIn, now, draw);
      var penalty := if addr.service.ip == source then 0 else penaltyIn;
      var time := if addr.time < penalty then 0 else addr.time - penalty;
      var id, s := t.idCount, p.NewSlot(addr.service, source);
      && isNew && id in u.info
      && u.info[id] == Info(addr.(time := time), source, 0, 0, 0, 0, 1, false, u.info[id].randomPos)
      && u.newAt == t.newAt[s := id] && OthersKept(t, u, id, s, true)
      && RestKept(t, u) && u.idCount == t.idCount + 1
  {
    hide AddrOk, RandomOk, NewOk, TriedOk, RefOk, TimesOk, NewIds, TriedIds, Settle, OthersKept;
    CreateKeeps(p, t, addr, source);
    NewIdUnused(p, t);
    var penalty := if addr.service.ip == source then 0 else penaltyIn;
    var (u0, id) := Create(t, addr, source);
    var x := u0.info[id].(addr := addr.(time := Max(0, addr.time - penalty)));
    var u := u0.(nNew := u0.nNew + 1);
    TweakKeeps(p, u, id, x, {id}, 0);
    var v, s := SetInfo(u, id, x), p.NewSlot(addr.service, source);
    OccupantKnown(p, t, s);
    SettleTakes(p, v, s, id, now, {id});
    OthersFresh(t, v, Settle(p, v, s, id, now, {id}), id, s);
  }

  lemma OthersFresh(t: Tables, v: Tables, u: Tables, id: int, s: Slot)
    requires id !in t.info && v.info.Keys == t.info.Keys + {id} && v.newAt == t.newAt && OthersKept(v, u, id, s, true)
    requires forall k | k in t.info :: v.info[k] == t.info[k]
    ensures OthersKept(t, u, id, s, true)
  {
    forall k | k in t.info && k != id ensures if Holds(t.newAt, s, k) then Reduced(t, u, k) else Kept(t, u, k) {
      assert if Holds(v.newAt, s, k) then Reduced(v, u, k) else Kept(v, u, k);
    }
  }

  // Good

  /** Entry y moves from its tried position s back to new position q with one reference; the occupant of q
      loses one. */
  ghost predicate Evicted(t: Tables, u: Tables, s: Slot, y: int, q: Slot) {
    && y in t.info && y in u.info
    && u.info[y] == t.info[y].(inTried := false, refCount := 1, randomPos := u.info[y].randomPos)
    && u.triedAt == t.triedAt - {s} && u.newAt == t.newAt[q := y]
    && OthersKept(t, u, y, q, true)
    && u.key == t.key && u.lastGood == t.lastGood && u.idCount == t.idCount
  }

  lemma EvictExactly(p: Placement, t: Tables, s: Slot, limbo: set<int>, uncounted: nat)
    requires p.InRange() && Between(p, t, limbo, uncounted) && s in t.triedAt && IsTried(t.info, t.triedAt[s])
    ensures var x := t.info[t.triedAt[s]];
      Evicted(t, Evict(p, t, s, limbo, uncounted), s, t.triedAt[s], p.NewSlot(x.addr.service, x.source))
  {
    hide AddrOk, RandomOk, NewOk, TriedOk, RefOk, TimesOk, NewIds, TriedIds, SwapRandom, ClearNew;
    var id := t.triedAt[s];
    DemoteKeeps(p, t, s, id, limbo, uncounted);
    var u := Demote(t, s, id);
    var q := p.NewSlot(u.info[id].addr.service, u.info[id].source);
    ClearNewKeeps(p, u, q, limbo + {id}, uncounted + 1);
    LimboKept(u.info, u.newAt, ClearNew(u, q).info, limbo + {id}, q);
    var v, w := ClearNew(u, q), Evict(p, t, s, limbo, uncounted);
    assert (t.newAt - {q})[q := id] == t.newAt[q := id];
    forall k | k in t.info && k != id ensures if Holds(t.newAt, q, k) then Reduced(t, w, k) else Kept(t, w, k) {
    }
  }

  /** Entry id leaves the new table and has tried position s; whatever was there is evicted. */
  ghost predicate Promoted(p: Placement, t: Tables, u: Tables, id: int)
    requires id in t.info
  {
    var s, free := p.triedSlot(t.info[id].addr.service), t.newAt - RefSlots(t.newAt, id);
    && id in u.info && u.info[id] == t.info[id].(inTried := true, refCount := 0, randomPos := u.info[id].randomPos)
    && u.triedAt == t.triedAt[s := id]
    && u.key == t.key && u.lastGood == t.lastGood && u.idCount == t.idCount
    && if s !in t.triedAt then u.newAt == free && OthersKept(t, u, id, s, false)
       else Moved(p, t, u, id, t.triedAt[s], free)
  }

  /** The part of that about the entry y in the way. */
  ghost predicate Moved(p: Placement, t: Tables, u: Tables, id: int, y: int, free: map<Slot, int>) {
    && y in t.info && y in u.info
    && var q := p.NewSlot(t.info[y].addr.service, t.info[y].source);
    && u.info[y] == t.info[y].(inTried := false, refCount := 1, randomPos := u.info[y].randomPos)
    && u.newAt == free[q := y]
    && u.info.Keys <= t.info.Keys
    && (forall k | k in t.info && k != id && k != y :: if Holds(t.newAt, q, k) then Reduced(t, u, k) else Kept(t, u, k))
  }

  lemma MakeTriedExactly(p: Placement, t: Tables, id: int)
    requires p.InRange() && Consistent(p, t) && IsNew(t.info, id)
    ensures Promoted(p, t, MakeTried(p, t, id), id)
  {
    hide AddrOk, RandomOk, NewOk, TriedOk, RefOk, TimesOk, NewIds, TriedIds, SwapRandom, ClearNew, Evict, RefSlots, OthersKept, Moved;
    UnlinkKeeps(p, t, id);
    var u := Unlink(t, id).(nNew := t.nNew - 1);
    var s := p.triedSlot(t.info[id].addr.service);
    EvictSurvives(p, u, s, id);
    TriedOccupant(p, t, s);
    if s in t.triedAt {
      EvictExactly(p, u, s, {id}, 1);
      MovedFrom(p, t, u, Evict(p, u, s, {id}, 1), s, id);
    } else {
      NothingTaken(t, Promote(u, s, id), id, s);
    }
  }

  lemma MovedFrom(p: Placement, t: Tables, u: Tables, v: Tables, s: Slot, id: int)
    requires IsNew(t.info, id) && s in t.triedAt && IsTried(t.info, t.triedAt[s]) && id in v.info
    requires u.info == t.info[id := t.info[id].(refCount := 0)] && u.newAt == t.newAt - RefSlots(t.newAt, id)
    requires var x := t.info[t.triedAt[s]]; Evicted(u, v, s, t.triedAt[s], p.NewSlot(x.addr.service, x.source))
    ensures Moved(p, t, Promote(v, s, id), id, t.triedAt[s], t.newAt - RefSlots(t.newAt, id))
  {
    hide Placement.NewSlot;
    var y, w := t.triedAt[s], Promote(v, s, id);
    var q := p.NewSlot(t.info[y].addr.service, t.info[y].source);
    forall k | k in t.info && k != id && k != y ensures if Holds(t.newAt, q, k) then Reduced(t, w, k) else Kept(t, w, k) {
      assert Holds(u.newAt, q, k) <==> Holds(t.newAt, q, k);
      assert if Holds(u.newAt, q, k) then Reduced(u, v, k) else Kept(u, v, k);
    }
  }

  /** A success: statistics are reset, and an untried address is moved to the tried table. */
  lemma GoodExactly(p: Placement, t: Tables, s: Service, time: int)
    requires p.InRange() && Consistent(p, t) && time > 0
    ensures var u, id := Good(p, t, s, time), Lookup(t, s);
      && (id == -1 ==> u == t.(lastGood := time))
      && (id != -1 ==>
            var x := t.info[id].(lastSuccess := time, lastTry := time, attempts := 0);
            var v := t.(lastGood := time, info := t.info[id := x]);
            if x.inTried then u == v else Promoted(p, v, u, id))
  {
    hide AddrOk, RandomOk, NewOk, TriedOk, RefOk, TimesOk, NewIds, TriedIds, MakeTried, Promoted;
    var id := Lookup(t, s);
    if id != -1 {
      var t1, x := t.(lastGood := time), Succeeded(t.info[id], time);
      TweakKeeps(p, t1, id, x, {}, 0);
      if !x.inTried {
        HasRefs(p, SetInfo(t1, id, x), id);
        MakeTriedExactly(p, SetInfo(t1, id, x), id);
      }
    }
  }

  // The remaining updates

  /** An entry is worth keeping if it was tried within the last minute, or else if it was seen within the
      last thirty days and not later than ten minutes from now, and has either succeeded within a week, or
      failed fewer than ten times since, three if it never succeeded. */
  lemma WorthKeeping(x: Info, now: int)
    ensures !x.IsTerrible(now) <==>
      || (x.lastTry != 0 && now - x.lastTry <= 60)
      || (&& x.addr.time != 0 && -10 * 60 <= now - x.addr.time <= 30 * 24 * 60 * 60
          && (x.lastSuccess == 0 ==> x.attempts < 3)
          && (now - x.lastSuccess <= 7 * 24 * 60 * 60 || x.attempts < 10))
  {
  }

  /** A series of attempts: whether each counts as a failure, and its time. */
  function Attempts(t: Tables, s: Service, events: seq<(bool, int)>): Tables
    decreases |events|
  {
    if events == [] then t else Attempts(Attempt(t, s, events[0].0, events[0].1), s, events[1..])
  }

  ghost predicate AnyCounts(events: seq<(bool, int)>) { exists i :: 0 <= i < |events| && events[i].0 }

  /** However often an address fails since the last success of any, one failure counts; the time of the last
      attempt is kept, and nothing else changes but the time of the attempt counted. */
  lemma {:induction false} FailureCountsOnce(t: Tables, s: Service, events: seq<(bool, int)>)
    requires Lookup(t, s) != -1 && forall i | 0 <= i < |events| :: events[i].1 >= t.lastGood
    ensures var u, id := Attempts(t, s, events), Lookup(t, s);
      var x := t.info[id];
      var counts := x.lastCountAttempt < t.lastGood && AnyCounts(events);
      && id in u.info
      && u == t.(info := t.info[id := x.(attempts := x.attempts + (if counts then 1 else 0),
                                         lastTry := if events == [] then x.lastTry else events[|events| - 1].1,
                                         lastCountAttempt := u.info[id].lastCountAttempt)])
      && (if counts then u.info[id].lastCountAttempt >= t.lastGood else u.info[id].lastCountAttempt == x.lastCountAttempt)
    decreases |events|
  {
    var id := Lookup(t, s);
    if events == [] {
      assert t.info[id := t.info[id]] == t.info;
    } else {
      var v, rest := Attempt(t, s, events[0].0, events[0].1), events[1..];
      FailureCountsOnce(v, s, rest);
      assert AnyCounts(events) <==> events[0].0 || AnyCounts(rest) by {
        if AnyCounts(rest) {
          var i :| 0 <= i < |rest| && rest[i].0;
          assert events[i + 1].0;
        }
        if AnyCounts(events) && !events[0].0 {
          var i :| 0 <= i < |events| && events[i].0;
          assert rest[i - 1].0;
        }
      }
    }
  }

  /** After a connection the time shown is at most twenty minutes behind, and it moves only if it was. */
  lemma ConnectedEffect(t: Tables, s: Service, time: int)
    ensures var u, id := Connected(t, s, time), Lookup(t, s);
      && (id == -1 || time <= t.info[id].addr.time + 20 * 60 ==> u == t)
      && (id != -1 ==>
            && id in u.info && u.info[id].addr.time >= time - 20 * 60
            && u.info[id].addr.time in {t.info[id].addr.time, time}
            && u == t.(info := t.info[id := t.info[id].(addr := t.info[id].addr.(time := u.info[id].addr.time))]))
  {
    var id := Lookup(t, s);
    if id != -1 { assert t.info[id := t.info[id]] == t.info; }
  }

  /** The services of a known address are replaced, and only those. */
  lemma SetServicesEffect(t: Tables, s: Service, services: set<nat>)
    ensures var u, id := SetServices(t, s, services), Lookup(t, s);
      && (id == -1 ==> u == t)
      && (id != -1 ==> id in u.info && u.info[id].addr == Address(s, services, t.info[id].addr.time)
                       && u == t.(info := t.info[id := t.info[id].(addr := u.info[id].addr)]))
  {
  }

  // How far one group reaches

  /** The new buckets open to addresses heard of from one group of sources. */
  function NewReach(e: Env, key: nat, group: seq<nat>): (r: set<nat>)
    ensures |r| <= NEW_BUCKETS_PER_SOURCE_GROUP
  {
    Image(i => e.cheapHash([KeyToken(key), GroupToken(group), NumToken(i)]) % NEW_BUCKET_COUNT, NEW_BUCKETS_PER_SOURCE_GROUP)
  }

  /** The tried buckets open to addresses of one group. */
  function TriedReach(e: Env, key: nat, group: seq<nat>): (r: set<nat>)
    ensures |r| <= TRIED_BUCKETS_PER_GROUP
  {
    Image(i => e.cheapHash([KeyToken(key), GroupToken(group), NumToken(i)]) % TRIED_BUCKET_COUNT, TRIED_BUCKETS_PER_GROUP)
  }

  function Image(f: nat -> nat, n: nat): (r: set<nat>)
    ensures |r| <= n
    ensures forall i | 0 <= i < n :: f(i) in r
  {
    if n == 0 then {} else Image(f, n - 1) + {f(n - 1)}
  }

  lemma NewBucketReached(e: Env, key: nat, s: Service, source: NetAddr)
    ensures NewBucket(e, key, s, source) in NewReach(e, key, e.group(source))
  {
    var group := e.group(source);
    var f: nat -> nat := i => e.cheapHash([KeyToken(key), GroupToken(group), NumToken(i)]) % NEW_BUCKET_COUNT;
    var i := e.cheapHash([KeyToken(key), GroupToken(e.group(s.ip)), GroupToken(group)]) % NEW_BUCKETS_PER_SOURCE_GROUP;
    assert f(i) in Image(f, NEW_BUCKETS_PER_SOURCE_GROUP);
  }

  lemma TriedBucketReached(e: Env, key: nat, s: Service)
    ensures TriedBucket(e, key, s) in TriedReach(e, key, e.group(s.ip))
  {
    var group := e.group(s.ip);
    var f: nat -> nat := i => e.cheapHash([KeyToken(key), GroupToken(group), NumToken(i)]) % TRIED_BUCKET_COUNT;
    var i := e.cheapHash([KeyToken(key), ServiceToken(s)]) % TRIED_BUCKETS_PER_GROUP;
    assert f(i) in Image(f, TRIED_BUCKETS_PER_GROUP);
  }

  /** In consistent tables the tried addresses of one group are within the eight buckets of that group. */
  lemma TriedGroupConfined(e: Env, key: nat, t: Tables, s: Slot)
    requires Consistent(Place(e, key), t) && s in t.triedAt
    ensures t.triedAt[s] in t.info && s.bucket in TriedReach(e, key, e.group(t.info[t.triedAt[s]].Ip()))
  {
    hide TriedReach, TriedBucket, AddrOk, RandomOk, NewOk, RefOk, TimesOk, NewIds, TriedIds;
    var p := Place(e, key);
    assert MaySitInTried(p, t.info, s, t.triedAt[s]);
    TriedBucketReached(e, key, t.info[t.triedAt[s]].addr.service);
  }

  // No group of sources fills the new table

  /** All that is known was heard of from one group of sources, and all new positions filled are
      within its reach. */
  ghost predicate Confined(e: Env, key: nat, t: Tables, group: seq<nat>) {
    && (forall id | id in t.info :: FromGroup(e, t.info[id], group))
    && (forall s | s in t.newAt :: s.bucket in NewReach(e, key, group))
  }

  ghost predicate FromGroup(e: Env, x: Info, group: seq<nat>) { e.group(x.source) == group }

  /** New positions filled are old ones or q, and no entry or source is new. */
  ghost predicate SlotsWithin(t: Tables, u: Tables, q: set<Slot>) {
    && u.newAt.Keys <= t.newAt.Keys + q
    && (forall k | k in u.info :: k in t.info && u.info[k].source == t.info[k].source)
  }

  lemma ConfinedWithin(e: Env, key: nat, t: Tables, u: Tables, q: set<Slot>, group: seq<nat>)
    requires Confined(e, key, t, group) && SlotsWithin(t, u, q)
    requires forall s | s in q :: s.bucket in NewReach(e, key, group)
    ensures Confined(e, key, u, group)
  {
    hide NewReach;
    forall s | s in u.newAt ensures s.bucket in NewReach(e, key, group) {
      assert s in u.newAt.Keys;
    }
  }

  lemma SlotReached(e: Env, key: nat, s: Service, source: NetAddr)
    ensures Place(e, key).NewSlot(s, source).bucket in NewReach(e, key, e.group(source))
  {
    hide NewReach, NewBucket, Position;
    NewBucketReached(e, key, s, source);
  }

  lemma AddConfined(e: Env, key: nat, t: Tables, addr: Address, source: NetAddr, penalty: int, now: int, draw: nat, group: seq<nat>)
    requires Consistent(Place(e, key), t) && Confined(e, key, t, group) && e.group(source) == group
    ensures Confined(e, key, Add(e, Place(e, key), t, addr, source, penalty, now, draw).0, group)
  {
    hide Consistent, NewReach, Add, Place;
    var p := Place(e, key);
    var u := Add(e, p, t, addr, source, penalty, now, draw).0;
    SlotReached(e, key, addr.service, source);
    if !e.routable(addr.service.ip) {
      NotRoutable(e, p, t, addr, source, penalty, now, draw);
    } else if addr.service.ip in t.addrId {
      AddKnownEffect(e, p, t, addr, source, penalty, now, draw);
      var id := t.addrId[addr.service.ip];
      var s := p.NewSlot(t.info[id].addr.service, source);
      SlotReached(e, key, t.info[id].addr.service, source);
      ConfinedWithin(e, key, t, u, {s}, group);
    } else {
      AddNewConfined(e, key, t, addr, source, penalty, now, draw, group);
    }
  }

  lemma NotRoutable(e: Env, p: Placement, t: Tables, addr: Address, source: NetAddr, penalty: int, now: int, draw: nat)
    requires p.InRange() && Consistent(p, t) && !e.routable(addr.service.ip)
    ensures Add(e, p, t, addr, source, penalty, now, draw) == (t, false)
  {
  }

  lemma AddNewConfined(e: Env, key: nat, t: Tables, addr: Address, source: NetAddr, penalty: int, now: int, draw: nat, group: seq<nat>)
    requires Consistent(Place(e, key), t) && Confined(e, key, t, group) && e.group(source) == group
    requires e.routable(addr.service.ip) && addr.service.ip !in t.addrId
    ensures Confined(e, key, Add(e, Place(e, key), t, addr, source, penalty, now, draw).0, group)
  {
    hide Consistent, NewReach, Add, Place, PositionYields;
    var p := Place(e, key);
    var s := p.NewSlot(addr.service, source);
    SlotReached(e, key, addr.service, source);
    if PositionYields(p, t, s, now) {
      AddNewEffect(e, p, t, addr, source, penalty, now, draw);
      var u, id := Add(e, p, t, addr, source, penalty, now, draw).0, t.idCount;
      forall k | k in u.info ensures FromGroup(e, u.info[k], group) {
        if k != id { assert FromGroup(e, t.info[k], group); }
      }
    } else {
      AddDrops(e, p, t, addr, source, penalty, now, draw);
    }
  }

  lemma EvictSlots(p: Placement, t: Tables, s: Slot, limbo: set<int>, uncounted: nat)
    requires p.InRange() && Between(p, t, limbo, uncounted) && s in t.triedAt && IsTried(t.info, t.triedAt[s])
    ensures var x := t.info[t.triedAt[s]];
      SlotsWithin(t, Evict(p, t, s, limbo, uncounted), {p.NewSlot(x.addr.service, x.source)})
  {
    hide AddrOk, RandomOk, NewOk, TriedOk, RefOk, TimesOk, NewIds, TriedIds, SwapRandom, ClearNew;
    var id := t.triedAt[s];
    DemoteKeeps(p, t, s, id, limbo, uncounted);
    var u := Demote(t, s, id);
    var q := p.NewSlot(u.info[id].addr.service, u.info[id].source);
    ClearNewKeeps(p, u, q, limbo + {id}, uncounted + 1);
    LimboKept(u.info, u.newAt, ClearNew(u, q).info, limbo + {id}, q);
    var v, w := ClearNew(u, q), Evict(p, t, s, limbo, uncounted);
    assert w.newAt.Keys == v.newAt.Keys + {q};
    forall k | k in w.info ensures k in t.info && w.info[k].source == t.info[k].source {
      ClearedSource(u, v, q, k);
    }
  }

  lemma ClearedSource(t: Tables, u: Tables, s: Slot, k: int)
    requires KeptBut(t.info, u.info, if s in t.newAt then {t.newAt[s]} else {}) && k in u.info
    requires s in t.newAt && t.newAt[s] in u.info ==>
      t.newAt[s] in t.info && u.info == t.info[t.newAt[s] := t.info[t.newAt[s]].(refCount := t.info[t.newAt[s]].refCount - 1)]
    ensures k in t.info && u.info[k].source == t.info[k].source
  {
  }

  lemma TriedOccupant(p: Placement, t: Tables, s: Slot)
    requires TriedOk(p, t.info, t.triedAt)
    ensures s in t.triedAt ==> IsTried(t.info, t.triedAt[s])
  {
    if s in t.triedAt { assert MaySitInTried(p, t.info, s, t.triedAt[s]); }
  }

  /** The new position, if any, that an entry in the way at tried position s would move to. */
  function MovesTo(p: Placement, t: Tables, s: Slot): set<Slot>
    requires s in t.triedAt ==> t.triedAt[s] in t.info
  {
    if s in t.triedAt then var x := t.info[t.triedAt[s]]; {p.NewSlot(x.addr.service, x.source)} else {}
  }

  lemma SlotsChain(t: Tables, u: Tables, v: Tables, q: set<Slot>)
    requires SlotsWithin(t, u, {}) && SlotsWithin(u, v, q)
    ensures SlotsWithin(t, v, q)
  {
  }

  lemma UnlinkSlots(t: Tables, id: int)
    requires id in t.info
    ensures SlotsWithin(t, Unlink(t, id).(nNew := t.nNew - 1), {})
  {
    hide RefSlots;
  }

  lemma PromoteSlots(t: Tables, u: Tables, s: Slot, id: int, q: set<Slot>)
    requires SlotsWithin(t, u, q) && id in u.info
    ensures SlotsWithin(t, Promote(u, s, id), q)
  {
  }

  lemma MakeTriedSlots(p: Placement, t: Tables, id: int)
    requires p.InRange() && Consistent(p, t) && IsNew(t.info, id)
    ensures var s := p.triedSlot(t.info[id].addr.service);
      (s in t.triedAt ==> t.triedAt[s] in t.info) && SlotsWithin(t, MakeTried(p, t, id), MovesTo(p, t, s))
  {
    hide AddrOk, RandomOk, NewOk, TriedOk, RefOk, TimesOk, NewIds, TriedIds, SwapRandom, ClearNew, Evict, Unlink, Promote, SlotsWithin;
    UnlinkKeeps(p, t, id);
    UnlinkSlots(t, id);
    UnlinkTried(t, id);
    var u := Unlink(t, id).(nNew := t.nNew - 1);
    var s := p.triedSlot(t.info[id].addr.service);
    EvictSurvives(p, u, s, id);
    TriedOccupant(p, t, s);
    if s in t.triedAt {
      EvictSlots(p, u, s, {id}, 1);
      SlotsChain(t, u, Evict(p, u, s, {id}, 1), MovesTo(p, t, s));
      PromoteSlots(t, Evict(p, u, s, {id}, 1), s, id, MovesTo(p, t, s));
    } else {
      PromoteSlots(t, u, s, id, {});
    }
  }

  lemma UnlinkTried(t: Tables, id: int)
    requires id in t.info
    ensures Unlink(t, id).triedAt == t.triedAt
  {
  }

  lemma GroupOf(e: Env, key: nat, t: Tables, id: int, group: seq<nat>)
    requires Confined(e, key, t, group) && id in t.info
    ensures e.group(t.info[id].source) == group
  {
    assert FromGroup(e, t.info[id], group);
  }

  lemma GoodConfined(e: Env, key: nat, t: Tables, s: Service, time: int, group: seq<nat>)
    requires Consistent(Place(e, key), t) && Confined(e, key, t, group) && time > 0
    ensures Confined(e, key, Good(Place(e, key), t, s, time), group)
  {
    hide AddrOk, RandomOk, NewOk, TriedOk, TimesOk, RefOk, NewIds, TriedIds, NewReach, MakeTried, Place;
    var p, id := Place(e, key), Lookup(t, s);
    if id != -1 {
      var t1, x := t.(lastGood := time), Succeeded(t.info[id], time);
      TweakKeeps(p, t1, id, x, {}, 0);
      var t2 := SetInfo(t1, id, x);
      ConfinedWithin(e, key, t, t2, {}, group);
      if !x.inTried {
        HasRefs(p, t2, id);
        MakeTriedSlots(p, t2, id);
        var at := p.triedSlot(x.addr.service);
        if at in t2.triedAt {
          var y := t2.info[t2.triedAt[at]];
          GroupOf(e, key, t2, t2.triedAt[at], group);
          SlotReached(e, key, y.addr.service, y.source);
          ConfinedWithin(e, key, t2, MakeTried(p, t2, id), {p.NewSlot(y.addr.service, y.source)}, group);
        } else {
          ConfinedWithin(e, key, t2, MakeTried(p, t2, id), {}, group);
        }
      }
    }
  }

  /** Every address added comes from one group of sources. */
  predicate FromOneGroup(e: Env, op: Operation, group: seq<nat>) {
    op.OpAdd? ==> e.group(op.source) == group
  }

  lemma StepConfined(e: Env, key: nat, t: Tables, op: Operation, group: seq<nat>)
    requires Consistent(Place(e, key), t) && Confined(e, key, t, group) && op.Timely() && FromOneGroup(e, op, group)
    ensures Confined(e, key, Step(e, Place(e, key), t, op), group)
  {
    hide Consistent, Add, Good, GetAddr, RandomOk, NewReach, Place;
    match op
    case OpAdd(addr, source, penalty, now, draw) => AddConfined(e, key, t, addr, source, penalty, now, draw, group);
    case OpGood(s, time) => GoodConfined(e, key, t, s, time, group);
    case OpGetAddr(draws, now) => GetAddrSound(Place(e, key), t, draws, now);
    case _ =>
      var u := Step(e, Place(e, key), t, op);
      assert u.newAt == t.newAt;
      ConfinedWithin(e, key, t, u, {}, group);
  }

  lemma {:induction false} RunConfined(e: Env, key: nat, t: Tables, ops: seq<Operation>, group: seq<nat>)
    requires Consistent(Place(e, key), t) && Confined(e, key, t, group)
    requires forall i | 0 <= i < |ops| :: ops[i].Timely() && FromOneGroup(e, ops[i], group)
    ensures Confined(e, key, Run(e, Place(e, key), t, ops), group)
    decreases |ops|
  {
    hide Consistent, Confined, Step, Place;
    if ops != [] {
      StepKeeps(e, Place(e, key), t, ops[0]);
      StepConfined(e, key, t, ops[0], group);
      RunConfined(e, key, Step(e, Place(e, key), t, ops[0]), ops[1..], group);
    }
  }

  /** In every run from an empty manager whose addresses were all heard of from one group of sources, the
      new positions filled are within 64 of the 1024 buckets. */
  lemma OneGroupCannotFill(e: Env, key: nat, ops: seq<Operation>, group: seq<nat>)
    requires forall i | 0 <= i < |ops| :: ops[i].Timely() && FromOneGroup(e, ops[i], group)
    ensures Consistent(Place(e, key), EmptyTables(key)) && |NewReach(e, key, group)| <= 64
    ensures var u := Run(e, Place(e, key), EmptyTables(key), ops);
      forall s | s in u.newAt :: s.bucket in NewReach(e, key, group)
  {
    hide Consistent, Run, NewReach, Place;
    EmptyConsistent(Place(e, key), key);
    RunConfined(e, key, EmptyTables(key), ops, group);
  }
}
