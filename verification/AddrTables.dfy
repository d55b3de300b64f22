/** The tables of the stochastic address manager, as values: what each internal
    step does to them, and the invariant all steps keep. */
module AddrTables {

  const TRIED_BUCKET_COUNT := 256
  const NEW_BUCKET_COUNT := 1024
  const BUCKET_SIZE := 64
  const TRIED_BUCKETS_PER_GROUP := 8
  const NEW_BUCKETS_PER_SOURCE_GROUP := 64
  const NEW_BUCKETS_PER_ADDRESS := 8
  const HORIZON_DAYS := 30
  const RETRIES := 3
  const MAX_FAILURES := 10
  const MIN_FAIL_DAYS := 7
  const GETADDR_MAX_PCT := 23
  const GETADDR_MAX := 2500

  type NetAddr = seq<nat>

  datatype Service = Service(ip: NetAddr, port: nat)

  datatype Address = Address(service: Service, services: set<nat>, time: int)

  /** What is fed to the hash writer that picks buckets and positions. */
  datatype Token = KeyToken(key: nat) | ServiceToken(service: Service) | GroupToken(group: seq<nat>)
                 | NumToken(n: int) | CharToken(c: char)

  /** The parts of the environment that the manager only calls: the hash, the
      grouping of network addresses and the routability test. */
  datatype Env = Env(cheapHash: seq<Token> -> nat, group: NetAddr -> seq<nat>, routable: NetAddr -> bool)

  datatype Info = Info(addr: Address, source: NetAddr, lastTry: int, lastCountAttempt: int,
                       lastSuccess: int, attempts: int, refCount: int, inTried: bool, randomPos: int)
  {
    function Ip(): NetAddr { addr.service.ip }

    predicate IsTerrible(now: int) {
      if lastTry != 0 && lastTry >= now - 60 then false
      else
        || addr.time > now + 10 * 60
        || addr.time == 0
        || now - addr.time > HORIZON_DAYS * 24 * 60 * 60
        || (lastSuccess == 0 && attempts >= RETRIES)
        || (now - lastSuccess > MIN_FAIL_DAYS * 24 * 60 * 60 && attempts >= MAX_FAILURES)
    }
  }

  function NewInfo(addr: Address, source: NetAddr): Info {
    Info(addr, source, 0, 0, 0, 0, 0, false, -1)
  }

  datatype Slot = Slot(bucket: nat, pos: nat)

  /** The manager's fields. An empty table position is one absent from the map. */
  datatype Tables = Tables(key: nat, idCount: int, info: map<int, Info>, addrId: map<NetAddr, int>,
                           random: seq<int>, nTried: int, triedAt: map<Slot, int>,
                           nNew: int, newAt: map<Slot, int>, lastGood: int)

  function EmptyTables(key: nat): Tables {
    Tables(key, 0, map[], map[], [], 0, map[], 0, map[], 1)
  }

  // Bucket selection

  function TriedBucket(e: Env, key: nat, s: Service): (b: nat)
    ensures b < TRIED_BUCKET_COUNT
  {
    var hash1 := e.cheapHash([KeyToken(key), ServiceToken(s)]);
    var hash2 := e.cheapHash([KeyToken(key), GroupToken(e.group(s.ip)), NumToken(hash1 % TRIED_BUCKETS_PER_GROUP)]);
    hash2 % TRIED_BUCKET_COUNT
  }

  function NewBucket(e: Env, key: nat, s: Service, src: NetAddr): (b: nat)
    ensures b < NEW_BUCKET_COUNT
  {
    var hash1 := e.cheapHash([KeyToken(key), GroupToken(e.group(s.ip)), GroupToken(e.group(src))]);
    var hash2 := e.cheapHash([KeyToken(key), GroupToken(e.group(src)), NumToken(hash1 % NEW_BUCKETS_PER_SOURCE_GROUP)]);
    hash2 % NEW_BUCKET_COUNT
  }

  function Position(e: Env, key: nat, s: Service, isNew: bool, bucket: nat): (p: nat)
    ensures p < BUCKET_SIZE
  {
    e.cheapHash([KeyToken(key), CharToken(if isNew then 'N' else 'K'), NumToken(bucket), ServiceToken(s)]) % BUCKET_SIZE
  }

  /** Where entries go under one key. */
  datatype Placement = Placement(newBucket: (Service, NetAddr) -> nat, newPos: (Service, nat) -> nat,
                                 triedSlot: Service -> Slot)
  {
    function NewSlot(s: Service, src: NetAddr): Slot {
      Slot(newBucket(s, src), newPos(s, newBucket(s, src)))
    }

    ghost predicate InRange() {
      && (forall s, src :: newBucket(s, src) < NEW_BUCKET_COUNT)
      && (forall s, b :: newPos(s, b) < BUCKET_SIZE)
      && (forall s :: triedSlot(s).bucket < TRIED_BUCKET_COUNT && triedSlot(s).pos < BUCKET_SIZE)
    }
  }

  function Place(e: Env, key: nat): (p: Placement)
    ensures p.InRange()
  {
    Placement((s, src) => NewBucket(e, key, s, src),
              (s, b) => Position(e, key, s, true, b),
              s => var b := TriedBucket(e, key, s); Slot(b, Position(e, key, s, false, b)))
  }

  // The invariant, clause by clause

  /** Entry id is listed under its own address. */
  ghost predicate Listed(addrId: map<NetAddr, int>, ip: NetAddr, id: int) {
    ip in addrId && addrId[ip] == id
  }

  ghost predicate HasIp(info: map<int, Info>, id: int, ip: NetAddr) {
    id in info && info[id].Ip() == ip
  }

  /** mapAddr and mapInfo are mutual inverses, and ids come from the counter. */
  ghost predicate AddrOk(idCount: int, info: map<int, Info>, addrId: map<NetAddr, int>) {
    && (forall id | id in info :: 0 <= id < idCount && Listed(addrId, info[id].Ip(), id))
    && (forall ip | ip in addrId :: HasIp(info, addrId[ip], ip))
  }

  ghost predicate SitsAt(info: map<int, Info>, id: int, i: int) {
    id in info && info[id].randomPos == i
  }

  /** vRandom and the stored positions are mutual inverses. */
  ghost predicate RandomOk(info: map<int, Info>, random: seq<int>) {
    && (forall id | id in info :: 0 <= info[id].randomPos < |random| && random[info[id].randomPos] == id)
    && (forall i | 0 <= i < |random| :: SitsAt(info, random[i], i))
  }

  ghost predicate MaySitInNew(p: Placement, info: map<int, Info>, s: Slot, id: int) {
    s.bucket < NEW_BUCKET_COUNT && id in info && !info[id].inTried && s.pos == p.newPos(info[id].addr.service, s.bucket)
  }

  /** Every filled new position holds an untried entry at its hashed place. */
  ghost predicate NewOk(p: Placement, info: map<int, Info>, newAt: map<Slot, int>) {
    forall s | s in newAt :: MaySitInNew(p, info, s, newAt[s])
  }

  ghost predicate MaySitInTried(p: Placement, info: map<int, Info>, s: Slot, id: int) {
    id in info && info[id].inTried && s == p.triedSlot(info[id].addr.service)
  }

  predicate Holds(at: map<Slot, int>, s: Slot, id: int) {
    s in at && at[s] == id
  }

  /** The tried positions are exactly the tried entries at their own hashed place. */
  ghost predicate TriedOk(p: Placement, info: map<int, Info>, triedAt: map<Slot, int>) {
    && (forall s | s in triedAt :: MaySitInTried(p, info, s, triedAt[s]))
    && (forall id | id in info && info[id].inTried :: Holds(triedAt, p.triedSlot(info[id].addr.service), id))
  }

  /** The new positions that hold id. */
  function RefSlots(newAt: map<Slot, int>, id: int): set<Slot> {
    set s | s in newAt && Holds(newAt, s, id)
  }

  /** Reference counts are exact. Untried entries outside limbo have 1 to 8
      references; entries in limbo are untried and have none. */
  ghost predicate RefOk(info: map<int, Info>, newAt: map<Slot, int>, limbo: set<int>) {
    && (forall id | id in info :: info[id].refCount == |RefSlots(newAt, id)| <= NEW_BUCKETS_PER_ADDRESS)
    && (forall id | id in info && !info[id].inTried && id !in limbo :: info[id].refCount >= 1)
    && (forall id | id in limbo :: id in info && !info[id].inTried && info[id].refCount == 0)
  }

  predicate IsTried(info: map<int, Info>, id: int) {
    id in info && info[id].inTried
  }

  predicate IsNew(info: map<int, Info>, id: int) {
    id in info && !info[id].inTried
  }

  function TriedIds(info: map<int, Info>): set<int> {
    set id | id in info && IsTried(info, id)
  }

  function NewIds(info: map<int, Info>): set<int> {
    set id | id in info && IsNew(info, id)
  }

  /** Statistics are plausible: a tried entry has succeeded at some time. */
  ghost predicate TimesOk(info: map<int, Info>) {
    forall id | id in info ::
      info[id].lastTry >= 0 && info[id].lastSuccess >= 0 && (info[id].inTried ==> info[id].lastSuccess > 0)
  }

  /** The invariant in the middle of an operation: limbo entries have no
      reference yet, and the new counter lags by uncounted. */
  ghost predicate Between(p: Placement, t: Tables, limbo: set<int>, uncounted: nat) {
    && t.idCount >= 0
    && AddrOk(t.idCount, t.info, t.addrId)
    && RandomOk(t.info, t.random)
    && NewOk(p, t.info, t.newAt)
    && TriedOk(p, t.info, t.triedAt)
    && RefOk(t.info, t.newAt, limbo)
    && t.nTried == |TriedIds(t.info)|
    && t.nNew + uncounted == |NewIds(t.info)|
    && TimesOk(t.info)
  }

  ghost predicate Consistent(p: Placement, t: Tables) {
    Between(p, t, {}, 0)
  }

  // The steps

  function Create(t: Tables, addr: Address, source: NetAddr): (r: (Tables, int)) {
    var id := t.idCount;
    var info := NewInfo(addr, source).(randomPos := |t.random|);
    (t.(idCount := id + 1, info := t.info[id := info], addrId := t.addrId[addr.service.ip := id],
        random := t.random + [id]), id)
  }

  ghost predicate RandomDefined(t: Tables) {
    forall i | 0 <= i < |t.random| :: SitsAt(t.info, t.random[i], i)
  }

  function SwapRandom(t: Tables, i: nat, j: nat): Tables
    requires i < |t.random| && j < |t.random|
    requires RandomDefined(t)
  {
    if i == j then t
    else
      var id1, id2 := t.random[i], t.random[j];
      var info1 := t.info[id1 := t.info[id1].(randomPos := j)];
      t.(info := info1[id2 := info1[id2].(randomPos := i)], random := t.random[i := id2][j := id1])
  }

  function Delete(t: Tables, id: int): Tables
    requires RandomDefined(t)
    requires id in t.info && 0 <= t.info[id].randomPos < |t.random|
  {
    var last := |t.random| - 1;
    var u := SwapRandom(t, t.info[id].randomPos, last);
    u.(random := u.random[..last], addrId := u.addrId - {t.info[id].Ip()}, info := u.info - {id}, nNew := t.nNew - 1)
  }

  function ClearNew(t: Tables, s: Slot): Tables
    requires RandomDefined(t)
    requires s in t.newAt ==> t.newAt[s] in t.info && 0 <= t.info[t.newAt[s]].randomPos < |t.random|
  {
    if s !in t.newAt then t
    else
      var id := t.newAt[s];
      var count := t.info[id].refCount - 1;
      var u := t.(info := t.info[id := t.info[id].(refCount := count)], newAt := t.newAt - {s});
      if count == 0 then Delete(u, id) else u
  }

  /** Enters an entry at an empty new position. */
  function Link(t: Tables, s: Slot, id: int): Tables
    requires id in t.info
  {
    t.(info := t.info[id := t.info[id].(refCount := t.info[id].refCount + 1)], newAt := t.newAt[s := id])
  }

  /** Takes an entry out of every new bucket. */
  function Unlink(t: Tables, id: int): Tables
    requires id in t.info
  {
    var info := t.info[id];
    t.(newAt := t.newAt - RefSlots(t.newAt, id),
       info := t.info[id := info.(refCount := info.refCount - |RefSlots(t.newAt, id)|)])
  }

  // What the steps keep

  /** The same entries, but for their positions in the random order. */
  ghost predicate Repositioned(info: map<int, Info>, info2: map<int, Info>) {
    && info2.Keys == info.Keys
    && (forall id | id in info :: info2[id] == info[id].(randomPos := info2[id].randomPos))
  }

  ghost predicate Reordered(t: Tables, u: Tables) {
    && Repositioned(t.info, u.info)
    && u == t.(info := u.info, random := u.random)
  }

  lemma RepositionedIndexes(p: Placement, idCount: int, info: map<int, Info>, info2: map<int, Info>,
                            addrId: map<NetAddr, int>, newAt: map<Slot, int>, triedAt: map<Slot, int>)
    requires Repositioned(info, info2) && AddrOk(idCount, info, addrId)
    requires NewOk(p, info, newAt) && TriedOk(p, info, triedAt)
    ensures AddrOk(idCount, info2, addrId) && NewOk(p, info2, newAt) && TriedOk(p, info2, triedAt)
  {
  }

  lemma RepositionedCounts(info: map<int, Info>, info2: map<int, Info>, newAt: map<Slot, int>, limbo: set<int>)
    requires Repositioned(info, info2) && RefOk(info, newAt, limbo) && TimesOk(info)
    ensures RefOk(info2, newAt, limbo) && TimesOk(info2)
    ensures TriedIds(info2) == TriedIds(info) && NewIds(info2) == NewIds(info)
  {
  }

  lemma ReorderedKeeps(p: Placement, t: Tables, u: Tables, limbo: set<int>, uncounted: nat)
    requires Between(p, t, limbo, uncounted) && Reordered(t, u) && RandomOk(u.info, u.random)
    ensures Between(p, u, limbo, uncounted)
  {
    hide AddrOk, RandomOk, NewOk, TriedOk, RefOk, TimesOk, NewIds, TriedIds, Repositioned;
    RepositionedIndexes(p, t.idCount, t.info, u.info, t.addrId, t.newAt, t.triedAt);
    RepositionedCounts(t.info, u.info, t.newAt, limbo);
  }

  lemma SwapPositions(info: map<int, Info>, random: seq<int>, i: nat, j: nat)
    requires RandomOk(info, random) && i < |random| && j < |random| && i != j
    ensures var id1, id2 := random[i], random[j];
      && id1 in info && id2 in info
      && var info2 := info[id1 := info[id1].(randomPos := j)][id2 := info[id2].(randomPos := i)];
        Repositioned(info, info2) && RandomOk(info2, random[i := id2][j := id1])
  {
    assert SitsAt(info, random[i], i);
    assert SitsAt(info, random[j], j);
  }

  lemma SwapRandomKeeps(p: Placement, t: Tables, i: nat, j: nat, limbo: set<int>, uncounted: nat)
    requires Between(p, t, limbo, uncounted)
    requires i < |t.random| && j < |t.random|
    ensures Between(p, SwapRandom(t, i, j), limbo, uncounted)
    ensures Reordered(t, SwapRandom(t, i, j))
    ensures SwapRandom(t, i, j).random == t.random[i := t.random[j]][j := t.random[i]]
  {
    hide AddrOk, NewOk, TriedOk, RefOk, TimesOk, NewIds, TriedIds;
    if i != j {
      SwapPositions(t.info, t.random, i, j);
      ReorderedKeeps(p, t, SwapRandom(t, i, j), limbo, uncounted);
    }
  }

  // Adding a fresh entry, field by field

  lemma FreshAddr(idCount: int, info: map<int, Info>, addrId: map<NetAddr, int>, x: Info)
    requires AddrOk(idCount, info, addrId) && idCount >= 0 && x.Ip() !in addrId
    ensures AddrOk(idCount + 1, info[idCount := x], addrId[x.Ip() := idCount])
  {
  }

  lemma FreshRandom(info: map<int, Info>, random: seq<int>, id: int, x: Info)
    requires RandomOk(info, random) && id !in info && x.randomPos == |random|
    ensures RandomOk(info[id := x], random + [id])
  {
    forall i | 0 <= i < |random| + 1 ensures SitsAt(info[id := x], (random + [id])[i], i) {
      if i < |random| { assert SitsAt(info, random[i], i); }
    }
  }

  lemma FreshTables(p: Placement, info: map<int, Info>, newAt: map<Slot, int>, triedAt: map<Slot, int>, id: int, x: Info)
    requires NewOk(p, info, newAt) && TriedOk(p, info, triedAt) && id !in info && !x.inTried
    ensures NewOk(p, info[id := x], newAt) && TriedOk(p, info[id := x], triedAt)
  {
    forall s | s in newAt ensures MaySitInNew(p, info[id := x], s, newAt[s]) {
      assert MaySitInNew(p, info, s, newAt[s]);
    }
    forall s | s in triedAt ensures MaySitInTried(p, info[id := x], s, triedAt[s]) {
      assert MaySitInTried(p, info, s, triedAt[s]);
    }
  }

  lemma FreshRefs(p: Placement, info: map<int, Info>, newAt: map<Slot, int>, id: int, x: Info)
    requires RefOk(info, newAt, {}) && NewOk(p, info, newAt) && id !in info && !x.inTried && x.refCount == 0
    ensures RefOk(info[id := x], newAt, {id})
  {
    assert RefSlots(newAt, id) == {} by {
      forall s | s in newAt ensures !Holds(newAt, s, id) {
        assert MaySitInNew(p, info, s, newAt[s]);
      }
    }
  }

  lemma FreshCounts(info: map<int, Info>, id: int, x: Info)
    requires id !in info && !x.inTried
    ensures TriedIds(info[id := x]) == TriedIds(info)
    ensures |NewIds(info[id := x])| == |NewIds(info)| + 1
  {
    assert NewIds(info[id := x]) == NewIds(info) + {id};
  }

  lemma CreateKeeps(p: Placement, t: Tables, addr: Address, source: NetAddr)
    requires Consistent(p, t) && addr.service.ip !in t.addrId
    ensures var (u, id) := Create(t, addr, source); Between(p, u.(nNew := u.nNew + 1), {id}, 0)
  {
    var id, x := t.idCount, NewInfo(addr, source).(randomPos := |t.random|);
    assert id !in t.info;
    FreshAddr(id, t.info, t.addrId, x);
    FreshRandom(t.info, t.random, id, x);
    FreshTables(p, t.info, t.newAt, t.triedAt, id, x);
    FreshRefs(p, t.info, t.newAt, id, x);
    FreshCounts(t.info, id, x);
  }

  // Changing one entry in place

  /** x is the entry again, with other statistics. */
  ghost predicate Tweaked(old_: Info, x: Info) {
    x.addr.service == old_.addr.service && x.inTried == old_.inTried && x.randomPos == old_.randomPos
  }

  lemma TweakIndexes(idCount: int, info: map<int, Info>, addrId: map<NetAddr, int>, random: seq<int>, id: int, x: Info)
    requires AddrOk(idCount, info, addrId) && RandomOk(info, random)
    requires id in info && x.Ip() == info[id].Ip() && x.randomPos == info[id].randomPos
    ensures AddrOk(idCount, info[id := x], addrId) && RandomOk(info[id := x], random)
  {
    var info2 := info[id := x];
    forall ip | ip in addrId ensures HasIp(info2, addrId[ip], ip) {
      assert HasIp(info, addrId[ip], ip);
    }
    forall i | 0 <= i < |random| ensures SitsAt(info2, random[i], i) {
      assert SitsAt(info, random[i], i);
    }
  }

  lemma TweakTables(p: Placement, info: map<int, Info>, newAt: map<Slot, int>, triedAt: map<Slot, int>, id: int, x: Info)
    requires NewOk(p, info, newAt) && TriedOk(p, info, triedAt) && id in info && Tweaked(info[id], x)
    ensures NewOk(p, info[id := x], newAt) && TriedOk(p, info[id := x], triedAt)
    ensures TriedIds(info[id := x]) == TriedIds(info) && NewIds(info[id := x]) == NewIds(info)
  {
    var info2 := info[id := x];
    forall s | s in newAt ensures MaySitInNew(p, info2, s, newAt[s]) {
      assert MaySitInNew(p, info, s, newAt[s]);
    }
    forall s | s in triedAt ensures MaySitInTried(p, info2, s, triedAt[s]) {
      assert MaySitInTried(p, info, s, triedAt[s]);
    }
  }

  lemma TweakTimes(info: map<int, Info>, id: int, x: Info)
    requires TimesOk(info) && id in info && x == info[id].(refCount := x.refCount)
    ensures TimesOk(info[id := x])
  {
  }

  lemma TweakKeeps(p: Placement, t: Tables, id: int, x: Info, limbo: set<int>, uncounted: nat)
    requires Between(p, t, limbo, uncounted) && id in t.info && Tweaked(t.info[id], x)
    requires x.refCount == t.info[id].refCount
    requires x.lastTry >= 0 && x.lastSuccess >= 0 && (x.inTried ==> x.lastSuccess > 0)
    ensures Between(p, t.(info := t.info[id := x]), limbo, uncounted)
  {
    hide AddrOk, RandomOk, NewOk, TriedOk, NewIds, TriedIds;
    TweakIndexes(t.idCount, t.info, t.addrId, t.random, id, x);
    TweakTables(p, t.info, t.newAt, t.triedAt, id, x);
  }

  // References in the new table

  lemma LinkRefs(info: map<int, Info>, newAt: map<Slot, int>, limbo: set<int>, s: Slot, id: int, x: Info)
    requires RefOk(info, newAt, limbo) && s !in newAt && id in info
    requires info[id].refCount < NEW_BUCKETS_PER_ADDRESS && x.refCount == info[id].refCount + 1
    requires !x.inTried && !info[id].inTried
    ensures RefOk(info[id := x], newAt[s := id], limbo - {id})
  {
    var newAt2 := newAt[s := id];
    assert RefSlots(newAt2, id) == RefSlots(newAt, id) + {s};
    forall k | k != id ensures RefSlots(newAt2, k) == RefSlots(newAt, k) {
    }
  }

  lemma UnlinkRefs(info: map<int, Info>, newAt: map<Slot, int>, limbo: set<int>, gone: set<Slot>, id: int, x: Info)
    requires RefOk(info, newAt, limbo) && id in info && gone <= RefSlots(newAt, id)
    requires x.refCount == info[id].refCount - |gone|
    requires !x.inTried && !info[id].inTried
    ensures x.refCount >= 0
    ensures RefOk(info[id := x], newAt - gone, if x.refCount == 0 then limbo + {id} else limbo)
  {
    var newAt2 := newAt - gone;
    assert RefSlots(newAt2, id) == RefSlots(newAt, id) - gone;
    assert |RefSlots(newAt, id) - gone| == |RefSlots(newAt, id)| - |gone|;
    forall k | k != id ensures RefSlots(newAt2, k) == RefSlots(newAt, k) {
    }
  }

  lemma NewOkLinked(p: Placement, info: map<int, Info>, newAt: map<Slot, int>, s: Slot, id: int)
    requires NewOk(p, info, newAt) && MaySitInNew(p, info, s, id)
    ensures NewOk(p, info, newAt[s := id])
  {
  }

  lemma NewOkUnlinked(p: Placement, info: map<int, Info>, newAt: map<Slot, int>, gone: set<Slot>)
    requires NewOk(p, info, newAt)
    ensures NewOk(p, info, newAt - gone)
  {
  }

  lemma LinkKeeps(p: Placement, t: Tables, s: Slot, id: int, limbo: set<int>, uncounted: nat)
    requires Between(p, t, limbo, uncounted) && s !in t.newAt
    requires MaySitInNew(p, t.info, s, id) && t.info[id].refCount < NEW_BUCKETS_PER_ADDRESS
    ensures Between(p, Link(t, s, id), limbo - {id}, uncounted)
  {
    hide AddrOk, RandomOk, NewOk, TriedOk, RefOk, TimesOk, NewIds, TriedIds;
    var x := t.info[id].(refCount := t.info[id].refCount + 1);
    TweakTimes(t.info, id, x);
    TweakIndexes(t.idCount, t.info, t.addrId, t.random, id, x);
    TweakTables(p, t.info, t.newAt, t.triedAt, id, x);
    LinkRefs(t.info, t.newAt, limbo, s, id, x);
    NewOkLinked(p, t.info[id := x], t.newAt, s, id);
  }

  lemma UnlinkSome(p: Placement, t: Tables, gone: set<Slot>, id: int, limbo: set<int>, uncounted: nat)
    requires Between(p, t, limbo, uncounted) && IsNew(t.info, id) && gone <= RefSlots(t.newAt, id)
    ensures var x := t.info[id].(refCount := t.info[id].refCount - |gone|);
      && x.refCount >= 0
      && Between(p, t.(info := t.info[id := x], newAt := t.newAt - gone),
                 if x.refCount == 0 then limbo + {id} else limbo, uncounted)
  {
    hide AddrOk, RandomOk, NewOk, TriedOk, RefOk, TimesOk, NewIds, TriedIds;
    var x := t.info[id].(refCount := t.info[id].refCount - |gone|);
    TweakTimes(t.info, id, x);
    TweakIndexes(t.idCount, t.info, t.addrId, t.random, id, x);
    TweakTables(p, t.info, t.newAt, t.triedAt, id, x);
    UnlinkRefs(t.info, t.newAt, limbo, gone, id, x);
    NewOkUnlinked(p, t.info[id := x], t.newAt, gone);
  }

  // Dropping an entry

  lemma DropAddr(idCount: int, info: map<int, Info>, addrId: map<NetAddr, int>, id: int)
    requires AddrOk(idCount, info, addrId) && id in info
    ensures AddrOk(idCount, info - {id}, addrId - {info[id].Ip()})
  {
    var addrId2 := addrId - {info[id].Ip()};
    forall ip | ip in addrId2 ensures HasIp(info - {id}, addrId2[ip], ip) {
      assert HasIp(info, addrId[ip], ip);
    }
  }

  lemma DropRandom(info: map<int, Info>, random: seq<int>, id: int)
    requires RandomOk(info, random) && |random| > 0 && random[|random| - 1] == id
    ensures RandomOk(info - {id}, random[..|random| - 1])
  {
    forall i | 0 <= i < |random| ensures SitsAt(info, random[i], i) {
    }
    assert SitsAt(info, random[|random| - 1], |random| - 1);
    var rest := random[..|random| - 1];
    forall i | 0 <= i < |rest| ensures SitsAt(info - {id}, rest[i], i) {
      assert SitsAt(info, random[i], i);
    }
  }

  lemma DropTables(p: Placement, info: map<int, Info>, newAt: map<Slot, int>, triedAt: map<Slot, int>, limbo: set<int>, id: int)
    requires NewOk(p, info, newAt) && TriedOk(p, info, triedAt) && RefOk(info, newAt, limbo) && id in limbo
    ensures NewOk(p, info - {id}, newAt) && TriedOk(p, info - {id}, triedAt)
  {
    assert RefSlots(newAt, id) == {};
    forall s | s in newAt ensures MaySitInNew(p, info - {id}, s, newAt[s]) {
      assert MaySitInNew(p, info, s, newAt[s]);
      assert s !in RefSlots(newAt, id);
    }
    forall s | s in triedAt ensures MaySitInTried(p, info - {id}, s, triedAt[s]) {
      assert MaySitInTried(p, info, s, triedAt[s]);
    }
  }

  lemma DropCounts(info: map<int, Info>, newAt: map<Slot, int>, limbo: set<int>, id: int)
    requires RefOk(info, newAt, limbo) && id in limbo
    ensures RefOk(info - {id}, newAt, limbo - {id})
    ensures TriedIds(info - {id}) == TriedIds(info)
    ensures |NewIds(info - {id})| == |NewIds(info)| - 1
  {
    assert NewIds(info - {id}) == NewIds(info) - {id};
    assert id in NewIds(info);
  }

  lemma DropTimes(info: map<int, Info>, id: int)
    requires TimesOk(info)
    ensures TimesOk(info - {id})
  {
  }

  /** Entries outside but are kept, up to their place in the random order, and none are added. */
  ghost predicate KeptBut(info: map<int, Info>, info2: map<int, Info>, but: set<int>) {
    && info2.Keys <= info.Keys
    && (forall k | k in info && k !in but :: k in info2 && info2[k] == info[k].(randomPos := info2[k].randomPos))
  }

  lemma LimboFacts(t: Tables, id: int, limbo: set<int>)
    requires RandomOk(t.info, t.random) && RefOk(t.info, t.newAt, limbo) && id in limbo
    ensures id in t.info && RandomDefined(t)
    ensures 0 <= t.info[id].randomPos < |t.random| && t.random[t.info[id].randomPos] == id
  {
  }

  lemma DeleteKeeps(p: Placement, t: Tables, id: int, limbo: set<int>, uncounted: nat)
    requires Between(p, t, limbo, uncounted) && id in limbo
    ensures Between(p, Delete(t, id), limbo - {id}, uncounted)
    ensures Repositioned(t.info - {id}, Delete(t, id).info)
    ensures var d := Delete(t, id);
      d == t.(info := d.info, random := d.random, addrId := t.addrId - {t.info[id].Ip()}, nNew := t.nNew - 1)
  {
    hide AddrOk, RandomOk, NewOk, TriedOk, RefOk, TimesOk, SwapRandom, NewIds, TriedIds, RandomDefined;
    LimboFacts(t, id, limbo);
    var last, pos := |t.random| - 1, t.info[id].randomPos;
    SwapRandomKeeps(p, t, pos, last, limbo, uncounted);
    var u := SwapRandom(t, pos, last);
    assert u.info[id].Ip() == t.info[id].Ip();
    DropAddr(u.idCount, u.info, u.addrId, id);
    DropRandom(u.info, u.random, id);
    DropTables(p, u.info, u.newAt, u.triedAt, limbo, id);
    DropCounts(u.info, u.newAt, limbo, id);
    DropTimes(u.info, id);
  }

  lemma RandomFacts(t: Tables)
    requires RandomOk(t.info, t.random)
    ensures RandomDefined(t)
  {
  }

  lemma SlotFacts(p: Placement, t: Tables, s: Slot, limbo: set<int>, uncounted: nat)
    requires Between(p, t, limbo, uncounted) && s in t.newAt
    ensures IsNew(t.info, t.newAt[s]) && t.newAt[s] !in limbo && {s} <= RefSlots(t.newAt, t.newAt[s])
    ensures RandomDefined(t) && 0 <= t.info[t.newAt[s]].randomPos < |t.random|
  {
    var id := t.newAt[s];
    assert MaySitInNew(p, t.info, s, id);
    assert s in RefSlots(t.newAt, id);
  }

  lemma ClearNewKeeps(p: Placement, t: Tables, s: Slot, limbo: set<int>, uncounted: nat)
    requires Between(p, t, limbo, uncounted)
    ensures RandomDefined(t) && (s in t.newAt ==> IsNew(t.info, t.newAt[s]) && 0 <= t.info[t.newAt[s]].randomPos < |t.random|)
    ensures Between(p, ClearNew(t, s), limbo, uncounted)
    ensures var u := ClearNew(t, s);
      u == t.(info := u.info, random := u.random, addrId := u.addrId, nNew := u.nNew, newAt := t.newAt - {s})
    ensures KeptBut(t.info, ClearNew(t, s).info, if s in t.newAt then {t.newAt[s]} else {})
    ensures s in t.newAt ==> var id := t.newAt[s];
      && (id in ClearNew(t, s).info <==> t.info[id].refCount > 1)
      && (t.info[id].refCount > 1 ==> ClearNew(t, s).info == t.info[id := t.info[id].(refCount := t.info[id].refCount - 1)])
  {
    hide AddrOk, RandomOk, NewOk, TriedOk, RefOk, TimesOk, NewIds, TriedIds, SwapRandom, Delete, RandomDefined;
    if s in t.newAt {
      var id := t.newAt[s];
      SlotFacts(p, t, s, limbo, uncounted);
      UnlinkSome(p, t, {s}, id, limbo, uncounted);
      var x := t.info[id].(refCount := t.info[id].refCount - 1);
      var u := t.(info := t.info[id := x], newAt := t.newAt - {s});
      if x.refCount == 0 {
        DeleteKeeps(p, u, id, limbo + {id}, uncounted);
        assert limbo + {id} - {id} == limbo;
      }
    } else {
      assert t.newAt - {s} == t.newAt;
      RandomFacts(t);
    }
  }
}
