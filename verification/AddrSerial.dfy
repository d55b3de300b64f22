/** Saving and loading the address manager. Only the entries and the index lists of
    the new buckets are written; everything else is rebuilt on loading. */
module AddrSerial {
  import opened Basics
  import opened AddrTables
  import opened AddrOperations

  /** The fields of an entry that are written. */
  datatype Record = Record(addr: Address, source: NetAddr, lastSuccess: int, attempts: int)

  datatype Item = ByteItem(b: nat) | KeyItem(key: nat) | IntItem(n: int) | RecordItem(r: Record)

  datatype Loaded = Failed | Loaded(t: Tables, rest: seq<Item>)

  const TWO_30: int := 0x4000_0000

  /** Exclusive or with 2**30. */
  function FlipBit30(n: int): int {
    if (n / TWO_30) % 2 == 1 then n - TWO_30 else n + TWO_30
  }

  // Saving

  function ToRecord(x: Info): Record {
    Record(x.addr, x.source, x.lastSuccess, x.attempts)
  }

  function FromRecord(r: Record): Info {
    NewInfo(r.addr, r.source).(lastSuccess := r.lastSuccess, attempts := r.attempts)
  }

  predicate Selected(info: map<int, Info>, id: int, tried: bool) {
    id in info && (if tried then info[id].inTried else info[id].refCount != 0)
  }

  /** The ids below n that go into one of the two entry lists, in map order. */
  function Ids(info: map<int, Info>, n: nat, tried: bool): seq<int> {
    if n == 0 then []
    else Ids(info, n - 1, tried) + (if Selected(info, n - 1, tried) then [n - 1] else [])
  }

  lemma {:induction false} IdsExact(info: map<int, Info>, n: nat, tried: bool)
    ensures forall id :: id in Ids(info, n, tried) <==> 0 <= id < n && Selected(info, id, tried)
    ensures Ascending(Ids(info, n, tried)) && Known(info, Ids(info, n, tried))
  {
    if n > 0 {
      IdsExact(info, n - 1, tried);
      var s, r := Ids(info, n - 1, tried), Ids(info, n, tried);
      forall i, j | 0 <= i < j < |r| ensures r[i] < r[j] {
        assert r[i] == s[i] && s[i] in s;
        if j < |s| { assert r[j] == s[j]; }
      }
    }
  }

  ghost predicate Known(info: map<int, Info>, ids: seq<int>) {
    forall i | 0 <= i < |ids| :: Has(info, ids[i])
  }

  predicate Has(info: map<int, Info>, id: int) {
    id in info
  }

  function RecordOf(info: map<int, Info>, id: int): Item
    requires Has(info, id)
  {
    RecordItem(ToRecord(info[id]))
  }

  function Records(info: map<int, Info>, ids: seq<int>): (s: seq<Item>)
    requires Known(info, ids)
  {
    seq(|ids|, i requires 0 <= i < |ids| => RecordOf(info, ids[i]))
  }

  function IndexOf(ids: seq<int>, id: int): (i: nat)
    ensures id in ids ==> i < |ids| && ids[i] == id
  {
    if ids == [] then 0 else if ids[0] == id then 0 else 1 + IndexOf(ids[1..], id)
  }

  /** The index list of bucket b from position i on. */
  function BucketItems(newAt: map<Slot, int>, ids: seq<int>, b: nat, i: nat): (s: seq<Item>)
    decreases BUCKET_SIZE - i
  {
    if i >= BUCKET_SIZE then []
    else (if Slot(b, i) in newAt then [IntItem(IndexOf(ids, newAt[Slot(b, i)]))] else []) + BucketItems(newAt, ids, b, i + 1)
  }

  function Buckets(newAt: map<Slot, int>, ids: seq<int>, b: nat): seq<Item>
    decreases NEW_BUCKET_COUNT - b
  {
    if b >= NEW_BUCKET_COUNT then []
    else [IntItem(|BucketItems(newAt, ids, b, 0)|)] + BucketItems(newAt, ids, b, 0) + Buckets(newAt, ids, b + 1)
  }

  function Header(key: nat, nNew: int, nTried: int): seq<Item> {
    [ByteItem(1), ByteItem(32), KeyItem(key), IntItem(nNew), IntItem(nTried), IntItem(FlipBit30(NEW_BUCKET_COUNT))]
  }

  function Max0(n: int): nat { if n < 0 then 0 else n }

  function Save(t: Tables): (s: seq<Item>)
  {
    var newIds := Ids(t.info, Max0(t.idCount), false);
    var triedIds := Ids(t.info, Max0(t.idCount), true);
    IdsExact(t.info, Max0(t.idCount), false);
    IdsExact(t.info, Max0(t.idCount), true);
    Header(t.key, t.nNew, t.nTried) + Records(t.info, newIds) + Records(t.info, triedIds) + Buckets(t.newAt, newIds, 0)
  }

  // Loading

  /** How the bucket lists are to be used. */
  datatype Format = Format(version: nat, nUBuckets: int)
  {
    predicate Usable() { version == 1 && nUBuckets == NEW_BUCKET_COUNT }
  }

  function AppendEntry(t: Tables, id: int, x: Info): Tables {
    t.(info := t.info[id := x.(randomPos := |t.random|)], addrId := t.addrId[x.Ip() := id], random := t.random + [id])
  }

  function LoadNewEntry(p: Placement, f: Format, t: Tables, n: int, r: Record): Tables {
    var x := FromRecord(r);
    var s := p.NewSlot(x.addr.service, x.source);
    if !f.Usable() && s !in t.newAt
    then AppendEntry(t, n, x.(refCount := 1)).(newAt := t.newAt[s := n])
    else AppendEntry(t, n, x)
  }

  function LoadNew(p: Placement, f: Format, t: Tables, n: int, s: seq<Item>): Loaded
    decreases t.nNew - n
  {
    if n >= t.nNew then Loaded(t, s)
    else if s == [] || !s[0].RecordItem? then Failed
    else LoadNew(p, f, LoadNewEntry(p, f, t, n, s[0].r), n + 1, s[1..])
  }

  /** Enters a tried record, or loses it if its position is taken. */
  function LoadTriedEntry(p: Placement, t: Tables, r: Record): Tables {
    var x := FromRecord(r);
    var s := p.triedSlot(x.addr.service);
    if s in t.triedAt then t
    else AppendEntry(t, t.idCount, x.(inTried := true)).(triedAt := t.triedAt[s := t.idCount], idCount := t.idCount + 1)
  }

  function LoadTried(p: Placement, t: Tables, n: int, lost: int, s: seq<Item>): Loaded
    decreases t.nTried - n
  {
    if n >= t.nTried then Loaded(t.(nTried := t.nTried - lost), s)
    else if s == [] || !s[0].RecordItem? then Failed
    else
      var u := LoadTriedEntry(p, t, s[0].r);
      LoadTried(p, u, n + 1, if u.idCount == t.idCount then lost + 1 else lost, s[1..])
  }

  function LoadReference(p: Placement, f: Format, t: Tables, b: nat, k: int): Tables
  {
    if 0 <= k < t.nNew && k in t.info then
      var s := Slot(b, p.newPos(t.info[k].addr.service, b));
      if f.Usable() && s !in t.newAt && t.info[k].refCount < NEW_BUCKETS_PER_ADDRESS then Link(t, s, k) else t
    else t
  }

  function LoadBucket(p: Placement, f: Format, t: Tables, b: nat, n: int, s: seq<Item>): Loaded
    decreases |s|
  {
    if n <= 0 then Loaded(t, s)
    else if s == [] || !s[0].IntItem? then Failed
    else LoadBucket(p, f, LoadReference(p, f, t, b, s[0].n), b, n - 1, s[1..])
  }

  lemma {:induction false} LoadBucketRest(p: Placement, f: Format, t: Tables, b: nat, n: int, s: seq<Item>)
    ensures var r := LoadBucket(p, f, t, b, n, s); r.Loaded? ==> |r.rest| <= |s|
    decreases |s|
  {
    if n > 0 && s != [] && s[0].IntItem? {
      LoadBucketRest(p, f, LoadReference(p, f, t, b, s[0].n), b, n - 1, s[1..]);
    }
  }

  function LoadBuckets(p: Placement, f: Format, t: Tables, b: nat, s: seq<Item>): Loaded
    decreases |s|
  {
    if b >= f.nUBuckets then Loaded(t, s)
    else if s == [] || !s[0].IntItem? then Failed
    else
      LoadBucketRest(p, f, t, b, s[0].n, s[1..]);
      var r := LoadBucket(p, f, t, b, s[0].n, s[1..]);
      if r.Failed? then Failed else LoadBuckets(p, f, r.t, b + 1, r.rest)
  }

  /** Deletes the untried entries with no reference, from id n on. */
  function Prune(t: Tables, n: int): Tables
    requires RandomOk(t.info, t.random)
    decreases t.idCount - n
  {
    if n >= t.idCount then t
    else if IsNew(t.info, n) && t.info[n].refCount == 0 then
      DeleteRandom(t, n);
      Prune(Delete(t, n), n + 1)
    else Prune(t, n + 1)
  }

  lemma DeleteRandom(t: Tables, id: int)
    requires RandomOk(t.info, t.random) && id in t.info
    ensures RandomDefined(t) && RandomOk(Delete(t, id).info, Delete(t, id).random) && Delete(t, id).idCount == t.idCount
  {
    hide SwapRandom, RandomOk, RandomDefined;
    var last := |t.random| - 1;
    PositionKnown(t, id);
    RandomFacts(t);
    SwapOk(t, t.info[id].randomPos, last);
    var u := SwapRandom(t, t.info[id].randomPos, last);
    LastAfterSwap(t, id);
    DropRandom(u.info, u.random, id);
  }

  lemma LastAfterSwap(t: Tables, id: int)
    requires RandomOk(t.info, t.random) && id in t.info
    ensures |t.random| > 0 && RandomDefined(t)
    ensures var last := |t.random| - 1; SwapRandom(t, t.info[id].randomPos, last).random[last] == id
  {
  }

  // The random order stays well formed while loading, whatever the stream

  ghost predicate Indexed(t: Tables, hi: int) {
    RandomOk(t.info, t.random) && forall id | id in t.info :: id < hi
  }

  lemma AppendIndexed(t: Tables, id: int, x: Info)
    requires Indexed(t, id)
    ensures Indexed(AppendEntry(t, id, x), id + 1)
  {
    FreshRandom(t.info, t.random, id, x.(randomPos := |t.random|));
  }

  lemma {:induction false} LoadNewIndexed(p: Placement, f: Format, t: Tables, n: int, s: seq<Item>)
    requires Indexed(t, n) && n >= 0
    ensures var r := LoadNew(p, f, t, n, s);
      r.Loaded? ==> Indexed(r.t, if t.nNew > n then t.nNew else n) && r.t.nTried == t.nTried && r.t.nNew == t.nNew
    decreases t.nNew - n
  {
    hide Indexed, AppendEntry;
    if n < t.nNew && s != [] && s[0].RecordItem? {
      LoadNewEntryIndexed(p, f, t, n, s[0].r);
      LoadNewIndexed(p, f, LoadNewEntry(p, f, t, n, s[0].r), n + 1, s[1..]);
    }
  }

  lemma LoadNewEntryIndexed(p: Placement, f: Format, t: Tables, n: int, r: Record)
    requires Indexed(t, n)
    ensures var u := LoadNewEntry(p, f, t, n, r); Indexed(u, n + 1) && u.nNew == t.nNew && u.nTried == t.nTried
  {
    AppendIndexed(t, n, FromRecord(r));
    AppendIndexed(t, n, FromRecord(r).(refCount := 1));
  }

  lemma {:induction false} LoadTriedIndexed(p: Placement, t: Tables, n: int, lost: int, s: seq<Item>)
    requires Indexed(t, t.idCount)
    ensures var r := LoadTried(p, t, n, lost, s); r.Loaded? ==> Indexed(r.t, r.t.idCount)
    decreases t.nTried - n
  {
    if n < t.nTried && s != [] && s[0].RecordItem? {
      var u := LoadTriedEntry(p, t, s[0].r);
      AppendIndexed(t, t.idCount, FromRecord(s[0].r).(inTried := true));
      LoadTriedIndexed(p, u, n + 1, if u.idCount == t.idCount then lost + 1 else lost, s[1..]);
    }
  }

  lemma LoadReferenceIndexed(p: Placement, f: Format, t: Tables, b: nat, k: int)
    requires Indexed(t, t.idCount)
    ensures var u := LoadReference(p, f, t, b, k); Indexed(u, u.idCount)
  {
    if 0 <= k < t.nNew && k in t.info {
      var x := t.info[k].(refCount := t.info[k].refCount + 1);
      forall i | 0 <= i < |t.random| ensures SitsAt(t.info[k := x], t.random[i], i) {
        assert SitsAt(t.info, t.random[i], i);
      }
    }
  }

  lemma {:induction false} LoadBucketIndexed(p: Placement, f: Format, t: Tables, b: nat, n: int, s: seq<Item>)
    requires Indexed(t, t.idCount)
    ensures var r := LoadBucket(p, f, t, b, n, s); r.Loaded? ==> Indexed(r.t, r.t.idCount)
    decreases |s|
  {
    hide Indexed, LoadReference;
    if n > 0 && s != [] && s[0].IntItem? {
      LoadReferenceIndexed(p, f, t, b, s[0].n);
      LoadBucketIndexed(p, f, LoadReference(p, f, t, b, s[0].n), b, n - 1, s[1..]);
    }
  }

  lemma {:induction false} LoadBucketsIndexed(p: Placement, f: Format, t: Tables, b: nat, s: seq<Item>)
    requires Indexed(t, t.idCount)
    ensures var r := LoadBuckets(p, f, t, b, s); r.Loaded? ==> Indexed(r.t, r.t.idCount)
    decreases |s|
  {
    hide Indexed, LoadBucket;
    if b < f.nUBuckets && s != [] && s[0].IntItem? {
      LoadBucketRest(p, f, t, b, s[0].n, s[1..]);
      LoadBucketIndexed(p, f, t, b, s[0].n, s[1..]);
      var r := LoadBucket(p, f, t, b, s[0].n, s[1..]);
      if r.Loaded? { LoadBucketsIndexed(p, f, r.t, b + 1, r.rest); }
    }
  }

  predicate GoodHeader(s: seq<Item>) {
    && |s| >= 6 && s[0].ByteItem? && s[1].ByteItem? && s[2].KeyItem? && s[3].IntItem? && s[4].IntItem? && s[5].IntItem?
    && s[1].b == 32
    && s[3].n <= NEW_BUCKET_COUNT * BUCKET_SIZE
    && s[4].n <= TRIED_BUCKET_COUNT * BUCKET_SIZE
  }

  function ReadFormat(s: seq<Item>): Format
    requires GoodHeader(s)
  {
    Format(s[0].b, if s[0].b != 0 then FlipBit30(s[5].n) else s[5].n)
  }

  /** The announced number of new entries is not negative. */
  predicate CountNatural(s: seq<Item>) {
    |s| > 3 && s[3].IntItem? ==> s[3].n >= 0
  }

  /** Loading replaces the whole state; Failed is the exception of the original. */
  function Load(e: Env, s: seq<Item>): Loaded
    requires CountNatural(s)
  {
    if !GoodHeader(s) then Failed
    else
      hide Indexed, LoadNew, LoadTried, LoadBuckets, Place;
      var p, f := Place(e, s[2].key), ReadFormat(s);
      var t0 := EmptyTables(s[2].key).(nNew := s[3].n, nTried := s[4].n);
      EmptyIndexed(t0);
      LoadNewIndexed(p, f, t0, 0, s[6..]);
      var r1 := LoadNew(p, f, t0, 0, s[6..]);
      if r1.Failed? then Failed
      else
        var t1 := r1.t.(idCount := r1.t.nNew);
        AfterNewIndexed(p, f, t0, s[6..]);
        LoadTriedIndexed(p, t1, 0, 0, r1.rest);
        var r2 := LoadTried(p, t1, 0, 0, r1.rest);
        if r2.Failed? then Failed
        else
          LoadBucketsIndexed(p, f, r2.t, 0, r2.rest);
          var r3 := LoadBuckets(p, f, r2.t, 0, r2.rest);
          if r3.Failed? then Failed
          else
            IndexedRandom(r3.t);
            Loaded(Prune(r3.t, 0), r3.rest)
  }

  lemma EmptyIndexed(t: Tables)
    requires t.info == map[] && t.random == []
    ensures Indexed(t, 0)
  {
  }

  lemma IndexedRandom(t: Tables)
    requires Indexed(t, t.idCount)
    ensures RandomOk(t.info, t.random)
  {
  }

  lemma AfterNewIndexed(p: Placement, f: Format, t: Tables, s: seq<Item>)
    requires t.info == map[] && t.random == []
    ensures var r := LoadNew(p, f, t, 0, s);
      r.Loaded? ==> Indexed(r.t.(idCount := r.t.nNew), r.t.nNew)
  {
    LoadNewIndexed(p, f, t, 0, s);
  }
}
