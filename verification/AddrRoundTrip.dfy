/** Loading what was saved from a consistent manager rebuilds it, with the entries
    renumbered and nothing lost. */
module AddrRoundTrip {
  import opened AddrTables
  import opened AddrOperations
  import opened AddrSerial
  import opened AddrTheorems

  /** The same manager under new ids: entry k was entry order[k]. */
  ghost predicate Renumbered(t: Tables, u: Tables, order: seq<int>) {
    && (forall i, j | 0 <= i < j < |order| :: order[i] != order[j])
    && Elements(order) == t.info.Keys
    && u.key == t.key && u.nNew == t.nNew && u.nTried == t.nTried && u.idCount == |order|
    && u.random == seq(|order|, i => i)
    && (forall k :: k in u.info <==> 0 <= k < |order|)
    && (forall k | 0 <= k < |order| :: k in u.info && SameEntry(t.info, order[k], u.info[k], k))
    && SameSlots(t.newAt, u.newAt, order)
    && SameSlots(t.triedAt, u.triedAt, order)
    && u.addrId.Keys == t.addrId.Keys
    && (forall ip | ip in u.addrId && ip in t.addrId :: Names(order, u.addrId[ip], t.addrId[ip]))
  }

  /** y is the persistent part of entry id, with its reference count and table. */
  ghost predicate SameEntry(info: map<int, Info>, id: int, y: Info, k: int) {
    id in info && var x := info[id];
      y == Info(x.addr, x.source, 0, 0, x.lastSuccess, x.attempts, x.refCount, x.inTried, k)
  }

  ghost predicate Names(order: seq<int>, k: int, id: int) {
    0 <= k < |order| && order[k] == id
  }

  ghost predicate SameSlots(at: map<Slot, int>, at2: map<Slot, int>, order: seq<int>) {
    && at2.Keys == at.Keys
    && (forall s | s in at && s in at2 :: Names(order, at2[s], at[s]))
  }

  // The states the loader goes through

  /** Entry k as loaded, before it has references; the first m are untried. */
  function Entry(info: map<int, Info>, order: seq<int>, m: nat, k: nat): Info
    requires Known(info, order) && k < |order|
  {
    assert Has(info, order[k]);
    FromRecord(ToRecord(info[order[k]])).(inTried := k >= m, randomPos := k)
  }

  function InfoUpTo(info: map<int, Info>, order: seq<int>, m: nat, n: nat): map<int, Info>
    requires Known(info, order) && n <= |order|
  {
    if n == 0 then map[] else InfoUpTo(info, order, m, n - 1)[n - 1 := Entry(info, order, m, n - 1)]
  }

  function AddrUpTo(info: map<int, Info>, order: seq<int>, m: nat, n: nat): map<NetAddr, int>
    requires Known(info, order) && n <= |order|
  {
    if n == 0 then map[] else AddrUpTo(info, order, m, n - 1)[Entry(info, order, m, n - 1).Ip() := n - 1]
  }

  function TriedUpTo(p: Placement, info: map<int, Info>, order: seq<int>, m: nat, n: nat): map<Slot, int>
    requires Known(info, order) && n <= |order|
  {
    if n <= m then map[]
    else TriedUpTo(p, info, order, m, n - 1)[p.triedSlot(Entry(info, order, m, n - 1).addr.service) := n - 1]
  }

  function Upto(n: nat): seq<int> { seq(n, i => i) }

  /** The tables once n entries are loaded. */
  function Stage(p: Placement, t: Tables, order: seq<int>, m: nat, n: nat): Tables
    requires Known(t.info, order) && n <= |order|
  {
    Tables(t.key, if n < m then 0 else n, InfoUpTo(t.info, order, m, n), AddrUpTo(t.info, order, m, n), Upto(n),
           t.nTried, TriedUpTo(p, t.info, order, m, n), t.nNew, map[], 1)
  }

  lemma StageNew(p: Placement, f: Format, t: Tables, order: seq<int>, m: nat, n: nat)
    requires Known(t.info, order) && n < m <= |order| && f.Usable()
    ensures Has(t.info, order[n])
    ensures LoadNewEntry(p, f, Stage(p, t, order, m, n).(idCount := 0), n, ToRecord(t.info[order[n]]))
      == Stage(p, t, order, m, n + 1).(idCount := 0)
  {
    assert Has(t.info, order[n]);
    assert Upto(n + 1) == Upto(n) + [n];
    assert Entry(t.info, order, m, n) == FromRecord(ToRecord(t.info[order[n]])).(randomPos := n);
  }

  lemma RecordsStep(info: map<int, Info>, ids: seq<int>, n: nat, m: nat, rest: seq<Item>)
    requires Known(info, ids) && n < m <= |ids|
    ensures Known(info, ids[n..m]) && Known(info, ids[n + 1..m]) && Has(info, ids[n])
    ensures var s := Records(info, ids[n..m]) + rest;
      s != [] && s[0] == RecordItem(ToRecord(info[ids[n]])) && s[1..] == Records(info, ids[n + 1..m]) + rest
  {
    assert ids[n..m][0] == ids[n];
    assert Records(info, ids[n..m])[1..] == Records(info, ids[n + 1..m]);
  }

  lemma KnownPart(info: map<int, Info>, ids: seq<int>, n: nat, m: nat)
    requires Known(info, ids) && n <= m <= |ids|
    ensures Known(info, ids[n..m])
  {
  }

  lemma {:induction false} StagesNew(p: Placement, f: Format, t: Tables, order: seq<int>, m: nat, n: nat, rest: seq<Item>)
    requires Known(t.info, order) && n <= m <= |order| && f.Usable() && t.nNew == m
    ensures Known(t.info, order[n..m])
    ensures LoadNew(p, f, Stage(p, t, order, m, n).(idCount := 0), n, Records(t.info, order[n..m]) + rest)
      == Loaded(Stage(p, t, order, m, m).(idCount := 0), rest)
    decreases m - n
  {
    hide LoadNewEntry, Stage, Known, Records;
    KnownPart(t.info, order, n, m);
    StageFields(p, t, order, m, n);
    if n == m {
      RecordsNone(t.info, order[n..m], rest);
    } else {
      RecordsStep(t.info, order, n, m, rest);
      StageNew(p, f, t, order, m, n);
      StagesNew(p, f, t, order, m, n + 1, rest);
    }
  }

  lemma RecordsNone(info: map<int, Info>, ids: seq<int>, rest: seq<Item>)
    requires Known(info, ids) && ids == []
    ensures Records(info, ids) + rest == rest
  {
  }

  // Tried entries

  /** No two tried entries share a position. */
  ghost predicate OwnPositions(p: Placement, info: map<int, Info>, order: seq<int>, m: nat)
    requires Known(info, order)
  {
    forall i, j | m <= i < j < |order| ::
      p.triedSlot(Entry(info, order, m, i).addr.service) != p.triedSlot(Entry(info, order, m, j).addr.service)
  }

  lemma {:induction false} TriedUpToKeys(p: Placement, info: map<int, Info>, order: seq<int>, m: nat, n: nat, s: Slot)
    requires Known(info, order) && m <= n <= |order| && s in TriedUpTo(p, info, order, m, n)
    ensures exists j :: m <= j < n && TriedUpTo(p, info, order, m, n)[s] == j && p.triedSlot(Entry(info, order, m, j).addr.service) == s
  {
    hide Entry, Known;
    if s != p.triedSlot(Entry(info, order, m, n - 1).addr.service) {
      TriedUpToKeys(p, info, order, m, n - 1, s);
    }
  }

  lemma StageTried(p: Placement, t: Tables, order: seq<int>, m: nat, n: nat)
    requires Known(t.info, order) && m <= n < |order| && OwnPositions(p, t.info, order, m)
    ensures Has(t.info, order[n])
    ensures LoadTriedEntry(p, Stage(p, t, order, m, n), ToRecord(t.info[order[n]])) == Stage(p, t, order, m, n + 1)
  {
    assert Has(t.info, order[n]);
    assert Upto(n + 1) == Upto(n) + [n];
    var x := Entry(t.info, order, m, n);
    assert x == FromRecord(ToRecord(t.info[order[n]])).(inTried := true, randomPos := n);
    if p.triedSlot(x.addr.service) in TriedUpTo(p, t.info, order, m, n) {
      TriedUpToKeys(p, t.info, order, m, n, p.triedSlot(x.addr.service));
      assert false;
    }
  }

  lemma {:induction false} StagesTried(p: Placement, t: Tables, order: seq<int>, m: nat, n: nat, rest: seq<Item>)
    requires Known(t.info, order) && m <= n <= |order| && OwnPositions(p, t.info, order, m) && t.nTried == |order| - m
    ensures Known(t.info, order[n..|order|])
    ensures LoadTried(p, Stage(p, t, order, m, n), n - m, 0, Records(t.info, order[n..|order|]) + rest)
      == Loaded(Stage(p, t, order, m, |order|), rest)
    decreases |order| - n
  {
    hide LoadTriedEntry, Known, Records, OwnPositions, InfoUpTo, AddrUpTo, TriedUpTo;
    KnownPart(t.info, order, n, |order|);
    if n == |order| {
      RecordsNone(t.info, order[n..|order|], rest);
    } else {
      RecordsStep(t.info, order, n, |order|, rest);
      StageTried(p, t, order, m, n);
      StagesTried(p, t, order, m, n + 1, rest);
    }
  }

  lemma StageFields(p: Placement, t: Tables, order: seq<int>, m: nat, n: nat)
    requires Known(t.info, order) && n <= |order|
    ensures Stage(p, t, order, m, n).nNew == t.nNew && Stage(p, t, order, m, n).nTried == t.nTried
  {
  }

  // References

  /** What the loaded entries look like once the positions in done are filled. */
  function Referenced(t: Tables, order: seq<int>, base: map<int, Info>, done: set<Slot>): map<int, Info> {
    map k | k in base :: WithRefs(t, order, base[k], k, done)
  }

  function WithRefs(t: Tables, order: seq<int>, x: Info, k: int, done: set<Slot>): Info {
    if 0 <= k < |order| then x.(refCount := |RefSlots(t.newAt, order[k]) * done|) else x
  }

  function Indexes(newAt: map<Slot, int>, order: seq<int>, done: set<Slot>): map<Slot, int> {
    map s | s in done :: IndexAt(newAt, order, s)
  }

  function IndexAt(newAt: map<Slot, int>, order: seq<int>, s: Slot): int {
    if s in newAt then IndexOf(order, newAt[s]) else -1
  }

  function Partial(t: Tables, order: seq<int>, full: Tables, done: set<Slot>): Tables {
    full.(info := Referenced(t, order, full.info, done), newAt := Indexes(t.newAt, order, done))
  }

  /** What the loaded entries and the saved ones agree on when references are read. */
  ghost predicate Matches(t: Tables, order: seq<int>, full: Tables, m: nat) {
    && m == t.nNew == full.nNew && m <= |order|
    && (forall i, j | 0 <= i < j < |order| :: order[i] != order[j])
    && (forall k | 0 <= k < |order| :: k in full.info && Has(t.info, order[k]) && SameService(full.info[k], t.info, order[k]))
  }

  ghost predicate SameService(y: Info, info: map<int, Info>, id: int) {
    id in info && y.addr.service == info[id].addr.service
  }

  lemma ReferenceCount(t: Tables, id: int, done: set<Slot>, s: Slot)
    requires Holds(t.newAt, s, id) && s !in done
    ensures |RefSlots(t.newAt, id) * (done + {s})| == |RefSlots(t.newAt, id) * done| + 1 <= |RefSlots(t.newAt, id)|
    ensures forall k | k != id :: RefSlots(t.newAt, k) * (done + {s}) == RefSlots(t.newAt, k) * done
  {
    var r := RefSlots(t.newAt, id);
    assert r * (done + {s}) == r * done + {s};
    SubsetSize(r * (done + {s}), r);
  }

  lemma {:induction false} SubsetSize(a: set<Slot>, b: set<Slot>)
    requires a <= b
    ensures |a| <= |b|
  {
    if a != {} {
      var x :| x in a;
      SubsetSize(a - {x}, b - {x});
    }
  }

  lemma ReferenceStep(p: Placement, f: Format, t: Tables, order: seq<int>, full: Tables, m: nat, done: set<Slot>, s: Slot)
    requires Matches(t, order, full, m) && f.Usable() && s in t.newAt && s !in done
    requires MaySitInNew(p, t.info, s, t.newAt[s]) && |RefSlots(t.newAt, t.newAt[s])| <= NEW_BUCKETS_PER_ADDRESS
    requires t.newAt[s] in order[..m]
    ensures LoadReference(p, f, Partial(t, order, full, done), s.bucket, IndexOf(order, t.newAt[s]))
      == Partial(t, order, full, done + {s})
  {
    hide RefSlots;
    var id := t.newAt[s];
    var k := IndexOf(order, id);
    assert id in order;
    IndexBelow(order, m, id);
    ReferenceCount(t, id, done, s);
    var u := Partial(t, order, full, done);
    assert s == Slot(s.bucket, p.newPos(u.info[k].addr.service, s.bucket));
    assert Indexes(t.newAt, order, done + {s}) == u.newAt[s := k];
    var x := u.info[k];
    assert Referenced(t, order, full.info, done + {s}) == u.info[k := x.(refCount := x.refCount + 1)];
  }

  lemma {:induction false} IndexBelow(order: seq<int>, m: nat, id: int)
    requires m <= |order| && id in order[..m]
    ensures IndexOf(order, id) < m
  {
    if order[0] != id {
      assert order[..m][1..] == order[1..][..m - 1];
      IndexBelow(order[1..], m - 1, id);
    }
  }

  predicate IsBefore(s: Slot, b: nat, i: nat) {
    s.bucket < b || (s.bucket == b && s.pos < i)
  }

  /** The filled positions read before position i of bucket b. */
  function Before(newAt: map<Slot, int>, b: nat, i: nat): set<Slot> {
    set s | s in newAt && IsBefore(s, b, i)
  }

  ghost predicate SlotReady(p: Placement, t: Tables, order: seq<int>, m: nat, s: Slot, id: int)
    requires m <= |order|
  {
    && MaySitInNew(p, t.info, s, id) && s.pos < BUCKET_SIZE
    && |RefSlots(t.newAt, id)| <= NEW_BUCKETS_PER_ADDRESS
    && id in order[..m]
  }

  ghost predicate Ready(p: Placement, t: Tables, order: seq<int>, full: Tables, m: nat) {
    && Matches(t, order, full, m)
    && (forall s | s in t.newAt :: SlotReady(p, t, order, m, s, t.newAt[s]))
  }

  lemma BeforeStep(newAt: map<Slot, int>, b: nat, i: nat)
    ensures var s := Slot(b, i);
      && s !in Before(newAt, b, i)
      && Before(newAt, b, i + 1) == if s in newAt then Before(newAt, b, i) + {s} else Before(newAt, b, i)
  {
  }

  lemma {:induction false} BucketLoads(p: Placement, f: Format, t: Tables, order: seq<int>, full: Tables, m: nat, b: nat, i: nat, rest: seq<Item>)
    requires Ready(p, t, order, full, m) && f.Usable() && i <= BUCKET_SIZE
    ensures var items := BucketItems(t.newAt, order, b, i);
      LoadBucket(p, f, Partial(t, order, full, Before(t.newAt, b, i)), b, |items|, items + rest)
      == Loaded(Partial(t, order, full, Before(t.newAt, b, BUCKET_SIZE)), rest)
    decreases BUCKET_SIZE - i
  {
    hide Partial, LoadReference, Before, Ready, BucketItems;
    BucketItemsStep(t.newAt, order, b, i, rest);
    if i < BUCKET_SIZE {
      var s := Slot(b, i);
      BeforeStep(t.newAt, b, i);
      BucketLoads(p, f, t, order, full, m, b, i + 1, rest);
      if s in t.newAt {
        ReadyAt(p, t, order, full, m, s);
        ReferenceStep(p, f, t, order, full, m, Before(t.newAt, b, i), s);
      }
    }
  }

  lemma BucketItemsStep(newAt: map<Slot, int>, order: seq<int>, b: nat, i: nat, rest: seq<Item>)
    ensures var items, tail := BucketItems(newAt, order, b, i), BucketItems(newAt, order, b, i + 1);
      && (i >= BUCKET_SIZE ==> items == [] && items + rest == rest)
      && (i < BUCKET_SIZE && Slot(b, i) !in newAt ==> items == tail)
      && (i < BUCKET_SIZE && Slot(b, i) in newAt ==>
            && |items| == |tail| + 1
            && (items + rest)[0] == IntItem(IndexOf(order, newAt[Slot(b, i)]))
            && (items + rest)[1..] == tail + rest)
  {
  }

  lemma ReadyAt(p: Placement, t: Tables, order: seq<int>, full: Tables, m: nat, s: Slot)
    requires Ready(p, t, order, full, m) && s in t.newAt
    ensures Matches(t, order, full, m)
    ensures MaySitInNew(p, t.info, s, t.newAt[s]) && |RefSlots(t.newAt, t.newAt[s])| <= NEW_BUCKETS_PER_ADDRESS
    ensures t.newAt[s] in order[..m]
  {
    assert SlotReady(p, t, order, m, s, t.newAt[s]);
  }

  lemma BeforeNext(p: Placement, t: Tables, order: seq<int>, full: Tables, m: nat, b: nat)
    requires Ready(p, t, order, full, m)
    ensures Before(t.newAt, b, BUCKET_SIZE) == Before(t.newAt, b + 1, 0)
    ensures Before(t.newAt, NEW_BUCKET_COUNT, 0) == t.newAt.Keys
    ensures Before(t.newAt, 0, 0) == {}
  {
    forall s | s in t.newAt ensures s.pos < BUCKET_SIZE && s.bucket < NEW_BUCKET_COUNT {
      assert SlotReady(p, t, order, m, s, t.newAt[s]);
    }
  }

  lemma {:induction false} BucketsLoad(p: Placement, f: Format, t: Tables, order: seq<int>, full: Tables, m: nat, b: nat)
    requires Ready(p, t, order, full, m) && f.Usable() && b <= NEW_BUCKET_COUNT
    ensures LoadBuckets(p, f, Partial(t, order, full, Before(t.newAt, b, 0)), b, Buckets(t.newAt, order, b))
      == Loaded(Partial(t, order, full, t.newAt.Keys), [])
    decreases NEW_BUCKET_COUNT - b
  {
    hide Partial, LoadBucket, Before, Ready, BucketItems;
    BeforeNext(p, t, order, full, m, b);
    if b < NEW_BUCKET_COUNT {
      var items, s := BucketItems(t.newAt, order, b, 0), Buckets(t.newAt, order, b);
      var rest := Buckets(t.newAt, order, b + 1);
      assert s[0] == IntItem(|items|) && s[1..] == items + rest;
      BucketLoads(p, f, t, order, full, m, b, 0, rest);
      BucketsLoad(p, f, t, order, full, m, b + 1);
    }
  }

  // The whole stream

  lemma {:induction false} IndexOfPrefix(a: seq<int>, b: seq<int>, id: int)
    requires id in a
    ensures IndexOf(a + b, id) == IndexOf(a, id)
  {
    if a[0] != id {
      assert (a + b)[1..] == a[1..] + b;
      IndexOfPrefix(a[1..], b, id);
    }
  }

  lemma {:induction false} BucketItemsPrefix(newAt: map<Slot, int>, a: seq<int>, c: seq<int>, b: nat, i: nat)
    requires forall s | s in newAt :: Within(a, newAt[s])
    ensures BucketItems(newAt, a + c, b, i) == BucketItems(newAt, a, b, i)
    decreases BUCKET_SIZE - i
  {
    if i < BUCKET_SIZE {
      BucketItemsPrefix(newAt, a, c, b, i + 1);
      if Slot(b, i) in newAt {
        assert Within(a, newAt[Slot(b, i)]);
        IndexOfPrefix(a, c, newAt[Slot(b, i)]);
      }
    }
  }

  ghost predicate Within(a: seq<int>, id: int) { id in a }

  lemma {:induction false} BucketsPrefix(newAt: map<Slot, int>, a: seq<int>, c: seq<int>, b: nat)
    requires forall s | s in newAt :: Within(a, newAt[s])
    ensures Buckets(newAt, a + c, b) == Buckets(newAt, a, b)
    decreases NEW_BUCKET_COUNT - b
  {
    if b < NEW_BUCKET_COUNT {
      BucketItemsPrefix(newAt, a, c, b, 0);
      BucketsPrefix(newAt, a, c, b + 1);
    }
  }

  /** The two id lists of a consistent manager: what is in them and how long they are. */
  lemma Lists(p: Placement, t: Tables)
    requires Consistent(p, t)
    ensures forall id :: id in Ids(t.info, t.idCount, false) <==> IsNew(t.info, id)
    ensures forall id :: id in Ids(t.info, t.idCount, true) <==> IsTried(t.info, id)
    ensures |Ids(t.info, t.idCount, false)| == t.nNew && |Ids(t.info, t.idCount, true)| == t.nTried
  {
    hide NewOk, TriedOk, TimesOk, RandomOk;
    var a, b := Ids(t.info, t.idCount, false), Ids(t.info, t.idCount, true);
    IdsExact(t.info, t.idCount, false);
    IdsExact(t.info, t.idCount, true);
    forall id ensures id in a <==> IsNew(t.info, id) {
      if id in t.info { EntryPasses(p, t, id); }
    }
    DistinctSize(a);
    DistinctSize(b);
    assert Elements(a) == NewIds(t.info);
    assert Elements(b) == TriedIds(t.info);
  }

  // Table sizes

  function Row(b: nat, size: nat): set<Slot> {
    set i: nat | 0 <= i < size :: Slot(b, i)
  }

  function Rows(n: nat): (r: set<Slot>)
    ensures forall s :: s in r <==> s.bucket < n && s.pos < BUCKET_SIZE
  {
    if n == 0 then {} else Rows(n - 1) + Row(n - 1, BUCKET_SIZE)
  }

  lemma {:induction false} RowSize(b: nat, size: nat)
    ensures |Row(b, size)| == size
  {
    if size > 0 {
      RowSize(b, size - 1);
      assert Row(b, size) == Row(b, size - 1) + {Slot(b, size - 1)};
    } else {
      assert Row(b, 0) == {};
    }
  }

  lemma {:induction false} RowsSize(n: nat)
    ensures |Rows(n)| == n * BUCKET_SIZE
  {
    hide Row;
    if n > 0 {
      RowsSize(n - 1);
      RowSize(n - 1, BUCKET_SIZE);
      RowApart(Rows(n - 1), n - 1);
    }
  }

  lemma RowApart(r: set<Slot>, b: nat)
    requires forall s | s in r :: s.bucket < b
    ensures r !! Row(b, BUCKET_SIZE)
  {
  }

  ghost function Pick<T>(s: set<T>): (x: T)
    requires s != {}
    ensures x in s
  {
    var x :| x in s;
    x
  }

  /** As many ids as positions at most, when every id holds one. */
  lemma {:induction false} IdsFit(ids: set<int>, at: map<Slot, int>)
    requires forall id | id in ids :: RefSlots(at, id) != {}
    ensures |ids| <= |at.Keys|
    decreases |ids|
  {
    if ids != {} {
      var id := Pick(ids);
      var s :| s in RefSlots(at, id);
      var at2 := at - {s};
      forall k | k in ids - {id} ensures RefSlots(at2, k) != {} {
        var q :| q in RefSlots(at, k);
        assert q in RefSlots(at2, k);
      }
      IdsFit(ids - {id}, at2);
      assert at2.Keys == at.Keys - {s};
    }
  }

  lemma Fits(ids: set<int>, at: map<Slot, int>, n: nat)
    requires forall id | id in ids :: RefSlots(at, id) != {}
    requires forall s | s in at :: s.bucket < n && s.pos < BUCKET_SIZE
    ensures |ids| <= n * BUCKET_SIZE
  {
    IdsFit(ids, at);
    RowsSize(n);
    assert at.Keys <= Rows(n);
    SubsetSize(at.Keys, Rows(n));
  }

  lemma CountsFit(p: Placement, t: Tables)
    requires p.InRange() && Consistent(p, t)
    ensures t.nNew <= NEW_BUCKET_COUNT * BUCKET_SIZE && t.nTried <= TRIED_BUCKET_COUNT * BUCKET_SIZE
  {
    hide AddrOk, RandomOk, TimesOk;
    forall s | s in t.newAt ensures s.bucket < NEW_BUCKET_COUNT && s.pos < BUCKET_SIZE {
      assert MaySitInNew(p, t.info, s, t.newAt[s]);
    }
    forall id | id in NewIds(t.info) ensures RefSlots(t.newAt, id) != {} {
      HasRefs(p, t, id);
    }
    Fits(NewIds(t.info), t.newAt, NEW_BUCKET_COUNT);
    forall s | s in t.triedAt ensures s.bucket < TRIED_BUCKET_COUNT && s.pos < BUCKET_SIZE {
      assert MaySitInTried(p, t.info, s, t.triedAt[s]);
    }
    forall id | id in TriedIds(t.info) ensures RefSlots(t.triedAt, id) != {} {
      OneTriedSlot(p, t.info, t.triedAt, id);
    }
    Fits(TriedIds(t.info), t.triedAt, TRIED_BUCKET_COUNT);
  }

  // The loaded entries, pointwise

  lemma {:induction false} InfoUpToExact(info: map<int, Info>, order: seq<int>, m: nat, n: nat)
    requires Known(info, order) && n <= |order|
    ensures forall k :: k in InfoUpTo(info, order, m, n) <==> 0 <= k < n
    ensures forall k | 0 <= k < n :: InfoUpTo(info, order, m, n)[k] == Entry(info, order, m, k)
  {
    hide Known, Entry;
    if n > 0 { InfoUpToExact(info, order, m, n - 1); }
  }

  /** The order in which a consistent manager's entries are written. */
  ghost function Order(t: Tables): seq<int> {
    Ids(t.info, Max0(t.idCount), false) + Ids(t.info, Max0(t.idCount), true)
  }

  lemma OrderFacts(p: Placement, t: Tables)
    requires Consistent(p, t)
    ensures var order := Order(t);
      && (forall i, j | 0 <= i < j < |order| :: order[i] != order[j])
      && Elements(order) == t.info.Keys
      && Known(t.info, order)
      && |order| == t.nNew + t.nTried && t.nNew >= 0 && t.nTried >= 0
      && (forall i | 0 <= i < |order| :: if i < t.nNew then IsNew(t.info, order[i]) else IsTried(t.info, order[i]))
  {
    hide AddrOk, RandomOk, TimesOk, NewOk, TriedOk, RefOk, NewIds, TriedIds;
    Lists(p, t);
    var a, b := Ids(t.info, t.idCount, false), Ids(t.info, t.idCount, true);
    IdsExact(t.info, t.idCount, false);
    IdsExact(t.info, t.idCount, true);
    var order := Order(t);
    forall i | 0 <= i < |order| ensures if i < t.nNew then IsNew(t.info, order[i]) else IsTried(t.info, order[i]) {
      if i < |a| { assert order[i] == a[i] && a[i] in a; } else { assert order[i] == b[i - |a|] && b[i - |a|] in b; }
    }
    forall i, j | 0 <= i < j < |order| ensures order[i] != order[j] {
      if j < |a| { assert order[i] == a[i] && order[j] == a[j]; }
      else if i >= |a| { assert order[i] == b[i - |a|] && order[j] == b[j - |a|]; }
    }
    forall id ensures id in order <==> id in t.info {
      assert id in order <==> id in a || id in b;
    }
  }

  lemma OwnTriedPositions(p: Placement, t: Tables)
    requires Consistent(p, t)
    ensures Known(t.info, Order(t)) && t.nNew >= 0
    ensures OwnPositions(p, t.info, Order(t), t.nNew)
  {
    hide AddrOk, RandomOk, TimesOk, NewOk, RefOk, NewIds, TriedIds, Order, Known, Elements;
    OrderFacts(p, t);
    var order, m := Order(t), t.nNew;
    forall i, j | m <= i < j < |order|
      ensures p.triedSlot(Entry(t.info, order, m, i).addr.service) != p.triedSlot(Entry(t.info, order, m, j).addr.service)
    {
      var a, b := order[i], order[j];
      assert IsTried(t.info, order[i]) && IsTried(t.info, order[j]) && a != b;
      TriedHeld(p, t, a);
      TriedHeld(p, t, b);
    }
  }

  /** The tables once everything is loaded. */
  ghost function Reloaded(p: Placement, t: Tables): Tables
    requires Consistent(p, t)
  {
    OrderFacts(p, t);
    Partial(t, Order(t), Stage(p, t, Order(t), t.nNew, |Order(t)|), t.newAt.Keys)
  }

  lemma ReadyToRefer(p: Placement, t: Tables)
    requires p.InRange() && Consistent(p, t)
    ensures Known(t.info, Order(t)) && t.nNew >= 0
    ensures Ready(p, t, Order(t), Stage(p, t, Order(t), t.nNew, |Order(t)|), t.nNew)
  {
    hide AddrOk, RandomOk, TimesOk, TriedOk, NewIds, TriedIds, AddrUpTo, TriedUpTo, InfoUpTo;
    OrderFacts(p, t);
    Lists(p, t);
    var order, m := Order(t), t.nNew;
    InfoUpToExact(t.info, order, m, |order|);
    forall s | s in t.newAt ensures SlotReady(p, t, order, m, s, t.newAt[s]) {
      assert MaySitInNew(p, t.info, s, t.newAt[s]);
      assert order[..m] == Ids(t.info, t.idCount, false);
    }
  }

  lemma PartialStart(p: Placement, t: Tables, order: seq<int>, m: nat)
    requires Known(t.info, order)
    ensures var full := Stage(p, t, order, m, |order|); Partial(t, order, full, {}) == full
  {
    hide Known, AddrUpTo, TriedUpTo, InfoUpTo;
    var full := Stage(p, t, order, m, |order|);
    InfoUpToExact(t.info, order, m, |order|);
    forall k | k in full.info ensures WithRefs(t, order, full.info[k], k, {}) == full.info[k] {
      assert RefSlots(t.newAt, order[k]) * {} == {};
    }
    assert Referenced(t, order, full.info, {}) == full.info;
    assert Indexes(t.newAt, order, {}) == map[];
  }

  lemma {:induction false} PruneNothing(t: Tables, n: int)
    requires RandomOk(t.info, t.random) && forall id | IsNew(t.info, id) :: t.info[id].refCount != 0
    ensures Prune(t, n) == t
    decreases t.idCount - n
  {
    hide RandomOk;
    if n < t.idCount { PruneNothing(t, n + 1); }
  }

  /** The saved stream, cut where the loader cuts it. */
  lemma SavedParts(p: Placement, t: Tables)
    requires p.InRange() && Consistent(p, t)
    ensures Known(t.info, Order(t)) && 0 <= t.nNew <= |Order(t)|
    ensures Known(t.info, Order(t)[0..t.nNew]) && Known(t.info, Order(t)[t.nNew..|Order(t)|])
    ensures GoodHeader(Save(t)) && ReadFormat(Save(t)) == Format(1, NEW_BUCKET_COUNT)
    ensures Save(t)[2] == KeyItem(t.key) && Save(t)[3] == IntItem(t.nNew) && Save(t)[4] == IntItem(t.nTried)
    ensures Save(t)[6..] == Records(t.info, Order(t)[0..t.nNew])
      + (Records(t.info, Order(t)[t.nNew..|Order(t)|]) + Buckets(t.newAt, Order(t), 0))
  {
    hide AddrOk, RandomOk, TimesOk, NewOk, RefOk, TriedOk, NewIds, TriedIds, Elements, Records, Buckets;
    OrderFacts(p, t);
    Lists(p, t);
    CountsFit(p, t);
    var a, b, order := Ids(t.info, t.idCount, false), Ids(t.info, t.idCount, true), Order(t);
    assert order[0..t.nNew] == a && order[t.nNew..|order|] == b;
    KnownPart(t.info, order, 0, t.nNew);
    KnownPart(t.info, order, t.nNew, |order|);
    forall s | s in t.newAt ensures Within(a, t.newAt[s]) { OccupantKnown(p, t, s); }
    BucketsPrefix(t.newAt, a, b, 0);
    HeaderReads(t.key, t.nNew, t.nTried, Records(t.info, a) + Records(t.info, b) + Buckets(t.newAt, order, 0));
    SplitStream(Header(t.key, t.nNew, t.nTried), Records(t.info, a), Records(t.info, b), Buckets(t.newAt, order, 0));
  }

  lemma SplitStream(h: seq<Item>, a: seq<Item>, b: seq<Item>, c: seq<Item>)
    requires |h| == 6
    ensures (h + a + b + c)[6..] == a + (b + c)
    ensures h + a + b + c == h + (a + b + c)
  {
  }

  lemma HeaderReads(key: nat, nNew: int, nTried: int, rest: seq<Item>)
    requires nNew <= NEW_BUCKET_COUNT * BUCKET_SIZE && nTried <= TRIED_BUCKET_COUNT * BUCKET_SIZE
    ensures var s := Header(key, nNew, nTried) + rest;
      && GoodHeader(s) && ReadFormat(s) == Format(1, NEW_BUCKET_COUNT)
      && s[2] == KeyItem(key) && s[3] == IntItem(nNew) && s[4] == IntItem(nTried)
  {
  }

  // The rebuilt indexes, pointwise

  lemma {:induction false} TriedUpToHas(p: Placement, info: map<int, Info>, order: seq<int>, m: nat, n: nat, j: nat)
    requires Known(info, order) && m <= j < n <= |order| && OwnPositions(p, info, order, m)
    ensures Holds(TriedUpTo(p, info, order, m, n), p.triedSlot(Entry(info, order, m, j).addr.service), j)
  {
    hide Known, Entry;
    if j < n - 1 { TriedUpToHas(p, info, order, m, n - 1, j); }
  }

  lemma TriedRebuilt(p: Placement, t: Tables)
    requires Consistent(p, t)
    ensures Known(t.info, Order(t)) && t.nNew >= 0
    ensures SameSlots(t.triedAt, TriedUpTo(p, t.info, Order(t), t.nNew, |Order(t)|), Order(t))
  {
    hide AddrOk, RandomOk, TimesOk, NewOk, RefOk, NewIds, TriedIds, Order, Known, TriedUpTo, OwnPositions;
    OrderFacts(p, t);
    OwnTriedPositions(p, t);
    var order, m := Order(t), t.nNew;
    var at := TriedUpTo(p, t.info, order, m, |order|);
    forall s | s in at ensures s in t.triedAt && Names(order, at[s], t.triedAt[s]) {
      TriedUpToKeys(p, t.info, order, m, |order|, s);
      var j :| m <= j < |order| && at[s] == j && p.triedSlot(Entry(t.info, order, m, j).addr.service) == s;
      assert IsTried(t.info, order[j]);
      TriedHeld(p, t, order[j]);
    }
    forall s | s in t.triedAt ensures s in at {
      var id := t.triedAt[s];
      assert MaySitInTried(p, t.info, s, id);
      assert id in Elements(order);
      var j :| 0 <= j < |order| && order[j] == id;
      assert j >= m;
      TriedUpToHas(p, t.info, order, m, |order|, j);
    }
  }

  lemma {:induction false} AddrUpToHas(info: map<int, Info>, order: seq<int>, m: nat, n: nat, j: nat)
    requires Known(info, order) && j < n <= |order|
    requires forall i, k | 0 <= i < k < |order| :: Entry(info, order, m, i).Ip() != Entry(info, order, m, k).Ip()
    ensures Listed(AddrUpTo(info, order, m, n), Entry(info, order, m, j).Ip(), j)
  {
    hide Known, Entry;
    if j < n - 1 { AddrUpToHas(info, order, m, n - 1, j); }
  }

  lemma {:induction false} AddrUpToKeys(info: map<int, Info>, order: seq<int>, m: nat, n: nat, ip: NetAddr)
    requires Known(info, order) && n <= |order| && ip in AddrUpTo(info, order, m, n)
    ensures exists j :: 0 <= j < n && AddrUpTo(info, order, m, n)[ip] == j && Entry(info, order, m, j).Ip() == ip
  {
    hide Known, Entry;
    if ip != Entry(info, order, m, n - 1).Ip() { AddrUpToKeys(info, order, m, n - 1, ip); }
  }

  lemma AddrRebuilt(p: Placement, t: Tables)
    requires Consistent(p, t)
    ensures Known(t.info, Order(t)) && t.nNew >= 0
    ensures var a := AddrUpTo(t.info, Order(t), t.nNew, |Order(t)|);
      && a.Keys == t.addrId.Keys
      && (forall ip | ip in a && ip in t.addrId :: Names(Order(t), a[ip], t.addrId[ip]))
  {
    hide RandomOk, TimesOk, NewOk, RefOk, TriedOk, NewIds, TriedIds, Order, Known, AddrUpTo;
    OrderFacts(p, t);
    var order, m := Order(t), t.nNew;
    var a := AddrUpTo(t.info, order, m, |order|);
    forall i | 0 <= i < |order| ensures Listed(t.addrId, Entry(t.info, order, m, i).Ip(), order[i]) {
      assert order[i] in Elements(order);
      var id := order[i];
      assert id in t.info;
    }
    forall i, k | 0 <= i < k < |order| ensures Entry(t.info, order, m, i).Ip() != Entry(t.info, order, m, k).Ip() {
      assert Listed(t.addrId, Entry(t.info, order, m, i).Ip(), order[i]);
      assert Listed(t.addrId, Entry(t.info, order, m, k).Ip(), order[k]);
    }
    forall ip | ip in a ensures ip in t.addrId && Names(order, a[ip], t.addrId[ip]) {
      AddrUpToKeys(t.info, order, m, |order|, ip);
      var j :| 0 <= j < |order| && a[ip] == j && Entry(t.info, order, m, j).Ip() == ip;
      assert Listed(t.addrId, Entry(t.info, order, m, j).Ip(), order[j]);
    }
    forall ip | ip in t.addrId ensures ip in a {
      var id := t.addrId[ip];
      assert HasIp(t.info, id, ip);
      assert id in Elements(order);
      var j :| 0 <= j < |order| && order[j] == id;
      AddrUpToHas(t.info, order, m, |order|, j);
    }
  }

  lemma EntriesRebuilt(p: Placement, t: Tables)
    requires Consistent(p, t)
    ensures var u := Reloaded(p, t);
      && (forall k :: k in u.info <==> 0 <= k < |Order(t)|)
      && (forall k | 0 <= k < |Order(t)| :: k in u.info && SameEntry(t.info, Order(t)[k], u.info[k], k))
  {
    hide AddrOk, RandomOk, TimesOk, NewOk, TriedOk, NewIds, TriedIds, Order, Known, InfoUpTo, AddrUpTo, TriedUpTo, Elements;
    OrderFacts(p, t);
    var order, m := Order(t), t.nNew;
    InfoUpToExact(t.info, order, m, |order|);
    forall k | 0 <= k < |order| ensures SameEntry(t.info, order[k], Reloaded(p, t).info[k], k) {
      var id := order[k];
      assert RefSlots(t.newAt, id) * t.newAt.Keys == RefSlots(t.newAt, id);
      assert if k < m then IsNew(t.info, order[k]) else IsTried(t.info, order[k]);
    }
  }

  lemma NewRebuilt(p: Placement, t: Tables)
    requires Consistent(p, t)
    ensures SameSlots(t.newAt, Reloaded(p, t).newAt, Order(t))
  {
    hide AddrOk, RandomOk, TimesOk, TriedOk, NewIds, TriedIds, Order, Known, Stage;
    OrderFacts(p, t);
    var order := Order(t);
    forall s | s in t.newAt ensures Names(order, Indexes(t.newAt, order, t.newAt.Keys)[s], t.newAt[s]) {
      var id := t.newAt[s];
      assert MaySitInNew(p, t.info, s, id);
      assert id in Elements(order);
    }
  }

  lemma ReloadedRenumbers(p: Placement, t: Tables)
    requires Consistent(p, t)
    ensures Renumbered(t, Reloaded(p, t), Order(t))
  {
    hide AddrOk, RandomOk, TimesOk, NewOk, TriedOk, RefOk, NewIds, TriedIds, Order, Known, InfoUpTo, AddrUpTo, TriedUpTo,
         SameSlots, SameEntry, Elements, Referenced, Indexes;
    OrderFacts(p, t);
    TriedRebuilt(p, t);
    AddrRebuilt(p, t);
    EntriesRebuilt(p, t);
    NewRebuilt(p, t);
  }

  /** Loading what Save wrote succeeds, reads the whole stream and gives back the
      same manager under new ids. */
  lemma LoadSaved(e: Env, t: Tables)
    requires Consistent(Place(e, t.key), t)
    ensures CountNatural(Save(t))
    ensures var r := Load(e, Save(t));
      r.Loaded? && r.rest == [] && Renumbered(t, r.t, Order(t))
  {
    hide AddrOk, RandomOk, TimesOk, NewOk, TriedOk, RefOk, NewIds, TriedIds, Order, Known, InfoUpTo, AddrUpTo, TriedUpTo,
         Place, Records, Buckets, LoadNew, LoadTried, LoadBuckets, Prune, Save, GoodHeader, ReadFormat, Renumbered, Partial,
         OwnPositions, Ready;
    var p, order, m, f := Place(e, t.key), Order(t), t.nNew, Format(1, NEW_BUCKET_COUNT);
    OrderFacts(p, t);
    SavedParts(p, t);
    StagesNew(p, f, t, order, m, 0, Records(t.info, order[m..|order|]) + Buckets(t.newAt, order, 0));
    OwnTriedPositions(p, t);
    StagesTried(p, t, order, m, m, Buckets(t.newAt, order, 0));
    var full := Stage(p, t, order, m, |order|);
    ReadyToRefer(p, t);
    PartialStart(p, t, order, m);
    BucketsLoad(p, f, t, order, full, m, 0);
    BeforeNext(p, t, order, full, m, 0);
    ReloadedRenumbers(p, t);
    ReloadedRandom(p, t);
    PruneNothing(Reloaded(p, t), 0);
    StageEmpty(p, t, order, m);
  }

  lemma StageEmpty(p: Placement, t: Tables, order: seq<int>, m: nat)
    requires Known(t.info, order) && m <= |order|
    ensures Stage(p, t, order, m, 0).(idCount := 0) == EmptyTables(t.key).(nNew := t.nNew, nTried := t.nTried)
    ensures Stage(p, t, order, m, m).(idCount := m) == Stage(p, t, order, m, m)
  {
    assert Upto(0) == [];
  }

  lemma ReloadedRandom(p: Placement, t: Tables)
    requires Consistent(p, t) && Renumbered(t, Reloaded(p, t), Order(t))
    ensures var u := Reloaded(p, t);
      RandomOk(u.info, u.random) && forall id | IsNew(u.info, id) :: u.info[id].refCount != 0
  {
    hide AddrOk, TimesOk, NewOk, TriedOk, RefOk, RandomOk, NewIds, TriedIds, Order, Reloaded, SameSlots;
    var u, order := Reloaded(p, t), Order(t);
    RenumberedRandom(t, u, order);
    forall k | 0 <= k < |order| ensures IsNew(u.info, k) ==> u.info[k].refCount != 0 {
      assert SameEntry(t.info, order[k], u.info[k], k);
      EntryPasses(p, t, order[k]);
    }
  }

  // The reloaded manager is consistent again

  ghost function Image(order: seq<int>, ks: set<int>): set<int>
    requires forall k | k in ks :: 0 <= k < |order|
  {
    set k | k in ks :: order[k]
  }

  lemma {:induction false} ImageSize(order: seq<int>, ks: set<int>)
    requires forall k | k in ks :: 0 <= k < |order|
    requires forall i, j | 0 <= i < j < |order| :: order[i] != order[j]
    ensures |Image(order, ks)| == |ks|
  {
    if ks == {} {
      assert Image(order, ks) == {};
    } else {
      var k := Pick(ks);
      ImageSize(order, ks - {k});
      assert Image(order, ks) == Image(order, ks - {k}) + {order[k]};
      assert order[k] !in Image(order, ks - {k});
    }
  }

  lemma RenumberedCounts(t: Tables, u: Tables, order: seq<int>)
    requires Renumbered(t, u, order)
    ensures |TriedIds(u.info)| == |TriedIds(t.info)| && |NewIds(u.info)| == |NewIds(t.info)|
  {
    hide SameSlots;
    forall k | 0 <= k < |order| ensures IsTried(u.info, k) == IsTried(t.info, order[k]) && IsNew(u.info, k) == IsNew(t.info, order[k]) {
      assert SameEntry(t.info, order[k], u.info[k], k);
    }
    forall id | id in t.info ensures exists k :: 0 <= k < |order| && order[k] == id {
      assert id in Elements(order);
    }
    ImageSize(order, TriedIds(u.info));
    ImageSize(order, NewIds(u.info));
    assert Image(order, TriedIds(u.info)) == TriedIds(t.info);
    assert Image(order, NewIds(u.info)) == NewIds(t.info);
  }

  lemma RenumberedEntry(t: Tables, u: Tables, order: seq<int>, k: int)
    requires Renumbered(t, u, order) && k in u.info
    ensures 0 <= k < |order| && SameEntry(t.info, order[k], u.info[k], k) && u.random[k] == k
  {
  }

  lemma RenumberedAddr(t: Tables, u: Tables, order: seq<int>)
    requires Renumbered(t, u, order) && AddrOk(t.idCount, t.info, t.addrId)
    ensures AddrOk(u.idCount, u.info, u.addrId)
  {
    hide SameSlots;
    forall k | k in u.info ensures 0 <= k < u.idCount && Listed(u.addrId, u.info[k].Ip(), k) {
      RenumberedEntry(t, u, order, k);
      var id := order[k];
      assert Listed(t.addrId, t.info[id].Ip(), id);
      assert Names(order, u.addrId[u.info[k].Ip()], id);
    }
    forall ip | ip in u.addrId ensures HasIp(u.info, u.addrId[ip], ip) {
      assert HasIp(t.info, t.addrId[ip], ip);
      assert Names(order, u.addrId[ip], t.addrId[ip]);
      RenumberedEntry(t, u, order, u.addrId[ip]);
    }
  }

  lemma RenumberedTables(p: Placement, t: Tables, u: Tables, order: seq<int>)
    requires Renumbered(t, u, order) && NewOk(p, t.info, t.newAt) && TriedOk(p, t.info, t.triedAt)
    ensures NewOk(p, u.info, u.newAt) && TriedOk(p, u.info, u.triedAt)
  {
    forall s | s in u.newAt ensures MaySitInNew(p, u.info, s, u.newAt[s]) {
      assert MaySitInNew(p, t.info, s, t.newAt[s]);
      assert Names(order, u.newAt[s], t.newAt[s]);
      RenumberedEntry(t, u, order, u.newAt[s]);
    }
    forall s | s in u.triedAt ensures MaySitInTried(p, u.info, s, u.triedAt[s]) {
      assert MaySitInTried(p, t.info, s, t.triedAt[s]);
      assert Names(order, u.triedAt[s], t.triedAt[s]);
      RenumberedEntry(t, u, order, u.triedAt[s]);
    }
    forall k | k in u.info && u.info[k].inTried ensures Holds(u.triedAt, p.triedSlot(u.info[k].addr.service), k) {
      RenumberedEntry(t, u, order, k);
      var id, s := order[k], p.triedSlot(u.info[k].addr.service);
      assert Holds(t.triedAt, s, id);
      assert Names(order, u.triedAt[s], id);
    }
  }

  lemma RenumberedRefs(t: Tables, u: Tables, order: seq<int>)
    requires Renumbered(t, u, order) && RefOk(t.info, t.newAt, {}) && TimesOk(t.info)
    ensures RefOk(u.info, u.newAt, {}) && TimesOk(u.info)
  {
    forall k | k in u.info
      ensures u.info[k].refCount == |RefSlots(u.newAt, k)| <= NEW_BUCKETS_PER_ADDRESS
      ensures !u.info[k].inTried ==> u.info[k].refCount >= 1
      ensures u.info[k].lastTry >= 0 && u.info[k].lastSuccess >= 0 && (u.info[k].inTried ==> u.info[k].lastSuccess > 0)
    {
      RenumberedEntry(t, u, order, k);
      var id := order[k];
      forall s | s in t.newAt ensures Holds(u.newAt, s, k) <==> Holds(t.newAt, s, id) {
        assert Names(order, u.newAt[s], t.newAt[s]);
      }
      assert RefSlots(u.newAt, k) == RefSlots(t.newAt, id);
    }
  }

  /** The consistency check that ends the original's loading passes. */
  lemma ReloadedConsistent(e: Env, t: Tables)
    requires Consistent(Place(e, t.key), t)
    ensures CountNatural(Save(t))
    ensures var r := Load(e, Save(t)); r.Loaded? && Consistent(Place(e, t.key), r.t)
  {
    hide AddrOk, RandomOk, TimesOk, NewOk, TriedOk, RefOk, NewIds, TriedIds, Place, Load, Save, Order;
    LoadSaved(e, t);
    var u, order := Load(e, Save(t)).t, Order(t);
    RenumberedCounts(t, u, order);
    RenumberedAddr(t, u, order);
    RenumberedTables(Place(e, t.key), t, u, order);
    RenumberedRefs(t, u, order);
    RenumberedRandom(t, u, order);
  }

  lemma RenumberedRandom(t: Tables, u: Tables, order: seq<int>)
    requires Renumbered(t, u, order)
    ensures RandomOk(u.info, u.random)
  {
    hide SameSlots;
    forall k | 0 <= k < |order| ensures SitsAt(u.info, u.random[k], k) {
      assert SameEntry(t.info, order[k], u.info[k], k);
    }
  }
}
