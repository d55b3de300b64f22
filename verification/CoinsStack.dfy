/** Write-back caches of unspent outputs, stacked on a database, as values: what every
    layer shows, what the flags promise, and the operations. */
module CoinsStack {
  import opened Basics

  const MAX_SCRIPT_SIZE := 10000
  const OP_RETURN := 0x6a

  datatype OutPoint = OutPoint(hash: nat, n: nat)

  datatype Coin = Coin(value: int, script: seq<nat>, height: nat, coinBase: bool, coinStake: bool, time: nat)
  {
    predicate IsSpent() { value == -1 }

    predicate IsUnspendable() {
      (|script| > 0 && script[0] == OP_RETURN) || |script| > MAX_SCRIPT_SIZE
    }
  }

  const CLEARED := Coin(-1, [], 0, false, false, 0)

  datatype Entry = Entry(coin: Coin, isDirty: bool, isFresh: bool)

  type Entries = map<OutPoint, Entry>
  type Coins = map<OutPoint, Coin>

  /** The database, or a cache on top of another view; hash 0 is the null hash. */
  datatype Stack =
    | Database(coins: Coins, hashBlock: nat)
    | Cache(entries: Entries, hashBlock: nat, base: Stack)

  // What a layer shows

  predicate Shown(entries: Entries, o: OutPoint) {
    o in entries && !entries[o].coin.IsSpent()
  }

  function ShownCoins(entries: Entries): Coins {
    map o | o in entries && Shown(entries, o) :: entries[o].coin
  }

  /** Entries shown over what the layer below presents. */
  function Over(below: Coins, entries: Entries): Coins {
    (below - entries.Keys) + ShownCoins(entries)
  }

  /** The unspent outputs a layer presents. */
  function View(s: Stack): Coins {
    match s
    case Database(coins, _) => coins
    case Cache(entries, _, base) => Over(View(base), entries)
  }

  lemma OverAt(below: Coins, entries: Entries, o: OutPoint)
    ensures var v := Over(below, entries);
      && (o in entries ==> (o in v <==> Shown(entries, o)) && (o in v ==> v[o] == entries[o].coin))
      && (o !in entries ==> (o in v <==> o in below) && (o in v ==> v[o] == below[o]))
  {
  }

  /** Changing the entry of one output changes what is shown of that output only. */
  lemma OverSet(below: Coins, entries: Entries, o: OutPoint, e: Entry)
    ensures Over(below, entries[o := e]) ==
      if e.coin.IsSpent() then Over(below, entries) - {o} else Over(below, entries)[o := e.coin]
  {
  }

  lemma OverRemove(below: Coins, entries: Entries, o: OutPoint)
    ensures Over(below, entries - {o}) ==
      if o in below then Over(below, entries)[o := below[o]] else Over(below, entries) - {o}
  {
  }

  // What the flags promise about the layer below

  ghost predicate EntryOk(e: Entry, o: OutPoint, below: Coins) {
    && (e.coin.IsSpent() ==> e.coin == CLEARED)
    && (e.isFresh ==> o !in below)
    && (!e.isDirty ==> if e.coin.IsSpent() then o !in below else o in below && below[o] == e.coin)
  }

  ghost predicate EntriesOk(entries: Entries, below: Coins) {
    forall o | o in entries :: EntryOk(entries[o], o, below)
  }

  ghost predicate Unspent(coins: Coins) {
    forall o | o in coins :: !coins[o].IsSpent()
  }

  ghost predicate Coherent(s: Stack) {
    match s
    case Database(coins, _) => Unspent(coins)
    case Cache(entries, _, base) => Coherent(base) && EntriesOk(entries, View(base))
  }

  lemma {:induction false} ViewUnspent(s: Stack)
    requires Coherent(s)
    ensures Unspent(View(s))
  {
    if s.Cache? {
      ViewUnspent(s.base);
      forall o | o in View(s) ensures !View(s)[o].IsSpent() {
        OverAt(View(s.base), s.entries, o);
      }
    }
  }

  // Lookups

  function GetCoin(s: Stack, o: OutPoint): (Stack, Option<Coin>)
    decreases s, 1
  {
    match s
    case Database(coins, _) => (s, if o in coins then Some(coins[o]) else None)
    case Cache(_, _, _) =>
      var f := Fetch(s, o);
      (f, if o in f.entries && !f.entries[o].coin.IsSpent() then Some(f.entries[o].coin) else None)
  }

  /** Brings the entry for o into this cache if the layer below has it. */
  function Fetch(s: Stack, o: OutPoint): (r: Stack)
    requires s.Cache?
    ensures r.Cache? && r.hashBlock == s.hashBlock
    decreases s, 0
  {
    if o in s.entries then s
    else
      var (b, c) := GetCoin(s.base, o);
      match c
      case None => s.(base := b)
      case Some(coin) => s.(base := b, entries := s.entries[o := Entry(coin, false, coin.IsSpent())])
  }

  /** Lookups change no layer's view and keep all flags honest. */
  lemma {:induction false} GetCoinKeeps(s: Stack, o: OutPoint)
    requires Coherent(s)
    ensures var (u, c) := GetCoin(s, o);
      Coherent(u) && View(u) == View(s) && c == (if o in View(s) then Some(View(s)[o]) else None)
    decreases s, 1
  {
    if s.Cache? {
      FetchKeeps(s, o);
      var f := Fetch(s, o);
      OverAt(View(f.base), f.entries, o);
    }
  }

  lemma {:induction false} FetchKeeps(s: Stack, o: OutPoint)
    requires Coherent(s) && s.Cache?
    ensures Coherent(Fetch(s, o)) && View(Fetch(s, o)) == View(s) && View(Fetch(s, o).base) == View(s.base)
    ensures o in Fetch(s, o).entries <==> o in s.entries || o in View(s.base)
    decreases s, 0
  {
    hide Over, EntryOk;
    if o !in s.entries {
      GetCoinKeeps(s.base, o);
      ViewUnspent(s.base);
      if o in View(s.base) {
        var e := Entry(View(s.base)[o], false, View(s.base)[o].IsSpent());
        OverSet(View(s.base), s.entries, o, e);
        OverAt(View(s.base), s.entries, o);
        FetchedOk(s.entries, View(s.base), o, e);
        assert Fetch(s, o).entries == s.entries[o := e];
      }
    }
  }

  lemma FetchedOk(entries: Entries, below: Coins, o: OutPoint, e: Entry)
    requires EntriesOk(entries, below) && EntryOk(e, o, below)
    ensures EntriesOk(entries[o := e], below)
  {
  }

  // Adding and spending

  /** Aborted is the database's assertion that the block hash is not null. */
  datatype Outcome = Thrown | Aborted | Done(s: Stack)

  /** The entry AddCoin leaves, given the one it finds or creates. */
  function AddedEntry(old_: Option<Entry>, coin: Coin, overwrite: bool): Entry {
    var e := if old_.Some? then old_.value else Entry(CLEARED, false, false);
    Entry(coin, true, e.isFresh || (!overwrite && !e.isDirty))
  }

  function Find(entries: Entries, o: OutPoint): Option<Entry> {
    if o in entries then Some(entries[o]) else None
  }

  /** Thrown is the exception for replacing an unspent coin. */
  function AddCoin(s: Stack, o: OutPoint, coin: Coin, overwrite: bool): (r: Outcome)
    requires s.Cache? && !coin.IsSpent()
    ensures !r.Aborted?
  {
    if coin.IsUnspendable() then Done(s)
    else if !overwrite && Shown(s.entries, o) then Thrown
    else Done(s.(entries := s.entries[o := AddedEntry(Find(s.entries, o), coin, overwrite)]))
  }

  /** Without possible_overwrite, AddCoin relies on the output being unspent nowhere
      below unless this cache has an entry for it; that is exactly when it keeps the
      flags honest. */
  lemma AddCoinExactly(s: Stack, o: OutPoint, coin: Coin, overwrite: bool)
    requires Coherent(s) && s.Cache? && !coin.IsSpent() && !coin.IsUnspendable()
    requires AddCoin(s, o, coin, overwrite).Done?
    ensures Coherent(AddCoin(s, o, coin, overwrite).s) <==> overwrite || o in s.entries || o !in View(s.base)
    ensures View(AddCoin(s, o, coin, overwrite).s) == View(s)[o := coin]
  {
    hide Over;
    var e := AddedEntry(Find(s.entries, o), coin, overwrite);
    var u := AddCoin(s, o, coin, overwrite).s;
    OverSet(View(s.base), s.entries, o, e);
    if overwrite || o in s.entries || o !in View(s.base) {
      FetchedOk(s.entries, View(s.base), o, e);
    } else {
      assert !EntryOk(u.entries[o], o, View(s.base));
    }
  }

  /** Adding an output that is not shown, or with possible_overwrite, never throws
      and adds exactly that output. */
  lemma AddCoinKeeps(s: Stack, o: OutPoint, coin: Coin, overwrite: bool)
    requires Coherent(s) && s.Cache? && !coin.IsSpent() && (overwrite || o !in View(s))
    ensures var r := AddCoin(s, o, coin, overwrite);
      r.Done? && r.s.Cache? && Coherent(r.s) && r.s.base == s.base
      && View(r.s) == if coin.IsUnspendable() then View(s) else View(s)[o := coin]
  {
    hide Over, EntriesOk;
    OverAt(View(s.base), s.entries, o);
    if !coin.IsUnspendable() { AddCoinExactly(s, o, coin, overwrite); }
  }

  /** The flag is what SpendCoin returns; the coin is what it moves out. */
  function SpendCoin(s: Stack, o: OutPoint): (Stack, bool, Coin)
    requires s.Cache?
  {
    var f := Fetch(s, o);
    if o !in f.entries then (f, false, CLEARED)
    else
      var e := f.entries[o];
      (f.(entries := if e.isFresh then f.entries - {o} else f.entries[o := Entry(CLEARED, true, false)]), true, e.coin)
  }

  /** SpendCoin removes exactly the output, and moves out the coin shown for it. It
      reports true for every output it has an entry for, spent or not. */
  lemma SpendCoinKeeps(s: Stack, o: OutPoint)
    requires Coherent(s) && s.Cache?
    ensures var (u, ok, coin) := SpendCoin(s, o);
      && u.Cache? && Coherent(u) && View(u) == View(s) - {o} && View(u.base) == View(s.base)
      && (ok <==> o in s.entries || o in View(s.base))
      && coin == (if o in View(s) then View(s)[o] else CLEARED)
  {
    hide Over;
    FetchKeeps(s, o);
    var f := Fetch(s, o);
    OverAt(View(f.base), f.entries, o);
    if o in f.entries {
      var e := f.entries[o];
      assert EntryOk(f.entries[o], o, View(f.base));
      if e.isFresh {
        OverRemove(View(f.base), f.entries, o);
      } else {
        OverSet(View(f.base), f.entries, o, Entry(CLEARED, true, false));
        FetchedOk(f.entries, View(f.base), o, Entry(CLEARED, true, false));
      }
    } else {
      assert View(s) - {o} == View(s);
    }
  }

  /** Spending the only coin of a database twice through one cache: both calls report
      true, though the second finds it spent. */
  lemma SpentTwice(o: OutPoint, c: Coin)
    requires !c.IsSpent()
    ensures var s := Cache(map[], 0, Database(map[o := c], 5));
      var (u, ok, coin) := SpendCoin(s, o);
      var (v, ok2, coin2) := SpendCoin(u, o);
      Coherent(s) && ok && coin == c && o !in View(u) && ok2 && coin2 == CLEARED
  {
    var s := Cache(map[], 0, Database(map[o := c], 5));
    SpendCoinKeeps(s, o);
    SpendCoinKeeps(SpendCoin(s, o).0, o);
  }

  function Uncache(s: Stack, o: OutPoint): Stack
    requires s.Cache?
  {
    if o in s.entries && !s.entries[o].isDirty && !s.entries[o].isFresh then s.(entries := s.entries - {o}) else s
  }

  lemma UncacheKeeps(s: Stack, o: OutPoint)
    requires Coherent(s) && s.Cache?
    ensures Coherent(Uncache(s, o)) && View(Uncache(s, o)) == View(s)
    ensures o in Uncache(s, o).entries <==> o in s.entries && (s.entries[o].isDirty || s.entries[o].isFresh)
    ensures Uncache(s, o) == s.(entries := s.entries - (s.entries.Keys - Uncache(s, o).entries.Keys))
  {
    hide Over;
    if o in s.entries && !s.entries[o].isDirty && !s.entries[o].isFresh {
      assert EntryOk(s.entries[o], o, View(s.base));
      OverAt(View(s.base), s.entries, o);
      OverRemove(View(s.base), s.entries, o);
    }
  }

  // Writing a cache back

  /** What the parent's entry becomes when the child's entry is written to it. */
  function MergedEntry(mine: Option<Entry>, e: Entry): Option<Entry> {
    if !e.isDirty then mine
    else match mine
      case None => if e.isFresh && e.coin.IsSpent() then None else Some(Entry(e.coin, true, e.isFresh))
      case Some(p) => if p.isFresh && e.coin.IsSpent() then None else Some(Entry(e.coin, true, p.isFresh))
  }

  /** The case in which BatchWrite throws. */
  predicate Misapplied(mine: Option<Entry>, e: Entry) {
    e.isDirty && mine.Some? && e.isFresh && !mine.value.coin.IsSpent()
  }

  function Merged(mine: Entries, child: Entries, o: OutPoint): Option<Entry> {
    if o in child then MergedEntry(Find(mine, o), child[o]) else Find(mine, o)
  }

  function Merge(mine: Entries, child: Entries): Entries {
    map o | o in mine.Keys + child.Keys && Merged(mine, child, o).Some? :: Merged(mine, child, o).value
  }

  ghost predicate MergeThrows(mine: Entries, child: Entries) {
    exists o :: o in child && Misapplied(Find(mine, o), child[o])
  }

  function Written(coins: Coins, child: Entries): Coins {
    (coins - (set o | o in child && child[o].isDirty)) + (map o | o in child && Writes(child, o) :: child[o].coin)
  }

  predicate Writes(child: Entries, o: OutPoint) {
    o in child && child[o].isDirty && !child[o].coin.IsSpent()
  }

  function BatchWrite(s: Stack, child: Entries, hashBlock: nat): Stack {
    match s
    case Database(coins, _) => Database(Written(coins, child), hashBlock)
    case Cache(mine, _, base) => Cache(Merge(mine, child), hashBlock, base)
  }

  function Flush(s: Stack): Stack
    requires s.Cache?
  {
    Cache(map[], s.hashBlock, BatchWrite(s.base, s.entries, s.hashBlock))
  }

  /** One output through a write-back: no misapplied flag, an honest entry, the same coin shown. */
  lemma MergePoint(mine: Entries, child: Entries, below: Coins, o: OutPoint)
    requires EntriesOk(mine, below) && EntriesOk(child, Over(below, mine))
    ensures o in child ==> !Misapplied(Find(mine, o), child[o])
    ensures Merged(mine, child, o).Some? ==> EntryOk(Merged(mine, child, o).value, o, below)
    ensures var m, v := Merged(mine, child, o), Over(Over(below, mine), child);
      && (m.Some? ==> (o in v <==> !m.value.coin.IsSpent()) && (o in v ==> v[o] == m.value.coin))
      && (m.None? ==> (o in v <==> o in below) && (o in v ==> v[o] == below[o]))
  {
    hide Over;
    OverAt(below, mine, o);
    OverAt(Over(below, mine), child, o);
    if o in child { assert EntryOk(child[o], o, Over(below, mine)); }
    if o in mine { assert EntryOk(mine[o], o, below); }
  }

  lemma MergeKeeps(mine: Entries, child: Entries, below: Coins)
    requires EntriesOk(mine, below) && EntriesOk(child, Over(below, mine))
    ensures !MergeThrows(mine, child)
    ensures EntriesOk(Merge(mine, child), below)
    ensures Over(below, Merge(mine, child)) == Over(Over(below, mine), child)
  {
    hide Over, EntryOk, Merged, Misapplied;
    var m, v := Merge(mine, child), Over(Over(below, mine), child);
    forall o
      ensures o in child ==> !Misapplied(Find(mine, o), child[o])
      ensures o in m ==> EntryOk(m[o], o, below)
      ensures o in Over(below, m) <==> o in v
      ensures o in v ==> Over(below, m)[o] == v[o]
    {
      MergePoint(mine, child, below, o);
      OverAt(below, m, o);
      MergeDomain(mine, child, o);
    }
  }

  lemma MergeDomain(mine: Entries, child: Entries, o: OutPoint)
    ensures o in Merge(mine, child) <==> Merged(mine, child, o).Some?
    ensures o in Merge(mine, child) ==> Merge(mine, child)[o] == Merged(mine, child, o).value
  {
  }

  lemma WrittenKeeps(coins: Coins, child: Entries)
    requires Unspent(coins) && EntriesOk(child, coins)
    ensures Unspent(Written(coins, child)) && Written(coins, child) == Over(coins, child)
  {
    forall o
      ensures o in Written(coins, child) <==> o in Over(coins, child)
      ensures o in Written(coins, child) ==> Written(coins, child)[o] == Over(coins, child)[o] && !Written(coins, child)[o].IsSpent()
    {
      if o in child { assert EntryOk(child[o], o, coins); }
    }
  }

  /** Flush leaves the layer's view unchanged, gives the layer below that same view,
      and never meets a misapplied flag. */
  lemma FlushKeeps(s: Stack)
    requires Coherent(s) && s.Cache?
    ensures Coherent(Flush(s)) && View(Flush(s)) == View(s) && View(Flush(s).base) == View(s)
    ensures s.base.Cache? ==> !MergeThrows(s.base.entries, s.entries)
  {
    hide Over, EntryOk, Merge, Written;
    if s.base.Cache? {
      MergeKeeps(s.base.entries, s.entries, View(s.base.base));
    } else {
      WrittenKeeps(s.base.coins, s.entries);
    }
    OverNothing(View(s));
  }

  // Coins that come and go

  /** A coin added where there was none and spent again leaves nothing behind in the cache. */
  lemma AddSpend(s: Stack, o: OutPoint, coin: Coin)
    requires s.Cache? && o !in s.entries && !coin.IsSpent() && !coin.IsUnspendable()
    ensures var r := AddCoin(s, o, coin, false);
      r.Done? && r.s.Cache? && SpendCoin(r.s, o) == (s, true, coin)
  {
    var u := AddCoin(s, o, coin, false).s;
    assert u.entries - {o} == s.entries;
  }

  /** Nor does it if it was flushed to the cache below in between: once the spending is flushed too, both caches are
      as if it had never been. */
  lemma AddFlushSpendFlush(s: Stack, o: OutPoint, coin: Coin)
    requires s.Cache? && s.base.Cache? && o !in s.entries && o !in s.base.entries
    requires !coin.IsSpent() && !coin.IsUnspendable()
    ensures var r := AddCoin(s, o, coin, false);
      && r.Done? && r.s.Cache?
      && var (v, ok, moved) := SpendCoin(Flush(r.s), o);
      ok && moved == coin && v.Cache? && Flush(v) == Flush(s)
  {
    hide MergedEntry, Fetch;
    var u := AddCoin(s, o, coin, false).s;
    var e := Entry(coin, true, true);
    assert u.entries == s.entries[o := e];
    assert MergedEntry(None, e) == Some(e) by { MergeFresh(e); }
    var below := Merge(s.base.entries, s.entries);
    assert Merge(s.base.entries, u.entries) == below[o := e];
    var f := Flush(u);
    FetchBelow(f, o);
    var v := SpendCoin(f, o).0;
    var gone := Entry(CLEARED, true, false);
    assert v.entries == map[o := gone];
    MergeGone(e, gone);
    assert Merge(below[o := e], map[o := gone]) == below;
  }

  lemma FetchBelow(s: Stack, o: OutPoint)
    requires s.Cache? && s.base.Cache? && o !in s.entries && o in s.base.entries && !s.base.entries[o].coin.IsSpent()
    ensures Fetch(s, o) == s.(entries := s.entries[o := Entry(s.base.entries[o].coin, false, false)])
  {
    assert Fetch(s.base, o) == s.base;
    assert GetCoin(s.base, o) == (s.base, Some(s.base.entries[o].coin));
  }

  lemma MergeFresh(e: Entry)
    requires e.isDirty && e.isFresh && !e.coin.IsSpent()
    ensures MergedEntry(None, e) == Some(e)
  {
  }

  lemma MergeGone(mine: Entry, e: Entry)
    requires mine.isFresh && e.isDirty && e.coin.IsSpent()
    ensures MergedEntry(Some(mine), e) == None
  {
  }

  lemma OverNothing(below: Coins)
    ensures Over(below, map[]) == below
  {
  }
}
