/** The coin cache as an object on top of another view. The original's class hierarchy
    is one class here: a view without a base is the database. */
module CoinsCache {
  import opened Basics
  import opened CoinsStack
  import opened CoinsRuns

  // Memory accounting

  function EntryUsage(usage: Coin -> nat, entries: Entries, o: OutPoint): nat {
    if o in entries then usage(entries[o].coin) else 0
  }

  ghost function Pick(s: set<OutPoint>): (o: OutPoint)
    requires s != {}
    ensures o in s
  {
    var o :| o in s;
    o
  }

  /** The memory held by the coins of a cache. */
  ghost function Usage(usage: Coin -> nat, entries: Entries): nat
    decreases |entries|
  {
    if entries == map[] then 0
    else
      var o := Pick(entries.Keys);
      SmallerMap(entries, o);
      usage(entries[o].coin) + Usage(usage, entries - {o})
  }

  lemma SmallerMap(entries: Entries, o: OutPoint)
    requires o in entries
    ensures |entries - {o}| < |entries|
  {
    assert (entries - {o}).Keys == entries.Keys - {o};
  }

  lemma {:induction false} UsageRemove(usage: Coin -> nat, entries: Entries, o: OutPoint)
    requires o in entries
    ensures Usage(usage, entries) == usage(entries[o].coin) + Usage(usage, entries - {o})
    decreases |entries|
  {
    var p := Pick(entries.Keys);
    if p != o {
      SmallerMap(entries, p);
      UsageRemove(usage, entries - {p}, o);
      assert entries - {p} - {o} == entries - {o} - {p};
      SmallerMap(entries, o);
      UsageRemove(usage, entries - {o}, p);
    }
  }

  lemma UsageSet(usage: Coin -> nat, entries: Entries, o: OutPoint, e: Entry)
    ensures Usage(usage, entries[o := e]) == Usage(usage, entries) - EntryUsage(usage, entries, o) + usage(e.coin)
  {
    UsageRemove(usage, entries[o := e], o);
    assert entries[o := e] - {o} == entries - {o};
    if o in entries { UsageRemove(usage, entries, o); } else { assert entries - {o} == entries; }
  }

  class CoinsView {
    const base: CoinsView?
    const usage: Coin -> nat
    /** The database's contents; unused in a cache. */
    var coins: Coins
    var cacheCoins: Entries
    var hashBlock: nat
    var cachedCoinsUsage: int
    ghost const Repr: set<CoinsView>

    ghost predicate Shape()
      decreases Repr
    {
      && this in Repr
      && (base == null ==> Repr == {this})
      && (base != null ==> this !in base.Repr && Repr == {this} + base.Repr && base.Shape())
    }

    ghost function Model(): Stack
      requires Shape()
      reads Repr
      decreases Repr
    {
      if base == null then Stack.Database(coins, hashBlock) else Stack.Cache(cacheCoins, hashBlock, base.Model())
    }

    /** Every layer's memory counter is exact. */
    ghost predicate Accounted()
      reads Repr
    {
      forall v | v in Repr :: v.cachedCoinsUsage == Usage(v.usage, v.cacheCoins)
    }

    constructor OfDatabase(coins_: Coins, hash: nat, u: Coin -> nat)
      ensures Shape() && Accounted() && fresh(Repr) && Model() == Stack.Database(coins_, hash)
    {
      base, usage, coins, cacheCoins, hashBlock, cachedCoinsUsage := null, u, coins_, map[], hash, 0;
      Repr := {this};
    }

    constructor OnTopOf(baseIn: CoinsView)
      requires baseIn.Shape() && baseIn.Accounted()
      ensures Shape() && Accounted() && fresh(Repr - baseIn.Repr)
      ensures base == baseIn && Model() == Stack.Cache(map[], 0, baseIn.Model())
    {
      base, usage, coins, cacheCoins, hashBlock, cachedCoinsUsage := baseIn, baseIn.usage, map[], map[], 0, 0;
      Repr := {this} + baseIn.Repr;
    }

    /** Brings the entry for o into cacheCoins if the base has it. */
    method FetchCoin(o: OutPoint)
      requires Shape() && base != null && Accounted()
      modifies Repr
      ensures Accounted() && Model() == Fetch(old(Model()), o)
      decreases Repr, 0
    {
      if o in cacheCoins { return; }
      var tmp := base.GetCoin(o);
      if tmp.None? { return; }
      UsageSet(usage, cacheCoins, o, Entry(tmp.value, false, false));
      UsageSet(usage, cacheCoins, o, Entry(tmp.value, false, true));
      var e := Entry(tmp.value, false, false);
      if e.coin.IsSpent() { e := e.(isFresh := true); }
      cacheCoins := cacheCoins[o := e];
      cachedCoinsUsage := cachedCoinsUsage + usage(e.coin);
    }

    method GetCoin(o: OutPoint) returns (c: Option<Coin>)
      requires Shape() && Accounted()
      modifies Repr
      ensures Accounted() && (Model(), c) == CoinsStack.GetCoin(old(Model()), o)
      decreases Repr, 1
    {
      if base == null { return if o in coins then Some(coins[o]) else None; }
      FetchCoin(o);
      if o in cacheCoins && !cacheCoins[o].coin.IsSpent() { return Some(cacheCoins[o].coin); }
      return None;
    }

    method AccessCoin(o: OutPoint) returns (c: Coin)
      requires Shape() && base != null && Accounted()
      modifies Repr
      ensures Accounted() && Model() == Fetch(old(Model()), o)
      ensures old(Coherent(Model())) ==> c == if o in old(View(Model())) then old(View(Model()))[o] else CLEARED
    {
      ghost var s := Model();
      FetchCoin(o);
      c := if o in cacheCoins then cacheCoins[o].coin else CLEARED;
      if Coherent(s) {
        FetchKeeps(s, o);
        OverAt(View(Model().base), cacheCoins, o);
        if o in cacheCoins { assert EntryOk(cacheCoins[o], o, View(Model().base)); }
      }
    }

    method HaveCoin(o: OutPoint) returns (have: bool)
      requires Shape() && base != null && Accounted()
      modifies Repr
      ensures Accounted() && Model() == Fetch(old(Model()), o) && have == Shown(Fetch(old(Model()), o).entries, o)
      ensures old(Coherent(Model())) ==> (have <==> o in old(View(Model())))
    {
      ghost var s := Model();
      FetchCoin(o);
      have := o in cacheCoins && !cacheCoins[o].coin.IsSpent();
      if Coherent(s) {
        FetchKeeps(s, o);
        OverAt(View(Model().base), cacheCoins, o);
      }
    }

    /** thrown: the exception was raised. It leaves the memory counter short by the
        coin that was to be replaced. */
    method AddCoin(o: OutPoint, coin: Coin, possible_overwrite: bool) returns (thrown: bool)
      requires Shape() && base != null && Accounted() && !coin.IsSpent()
      modifies this
      ensures var r := CoinsStack.AddCoin(old(Model()), o, coin, possible_overwrite);
        && (thrown <==> r.Thrown?)
        && (!thrown ==> Accounted() && Model() == r.s)
        && (thrown ==> Model() == old(Model()) && cachedCoinsUsage == old(cachedCoinsUsage) - EntryUsage(usage, cacheCoins, o))
    {
      if coin.IsUnspendable() { return false; }
      ghost var before := cacheCoins;
      var inserted := o !in cacheCoins;
      var e := if inserted then Entry(CLEARED, false, false) else cacheCoins[o];
      var isFresh := false;
      if !inserted {
        cachedCoinsUsage := cachedCoinsUsage - usage(e.coin);
      }
      if !possible_overwrite {
        if !e.coin.IsSpent() { return true; }
        isFresh := !e.isDirty;
      }
      UsageSet(usage, cacheCoins, o, Entry(coin, true, e.isFresh || isFresh));
      cacheCoins := cacheCoins[o := Entry(coin, true, e.isFresh || isFresh)];
      cachedCoinsUsage := cachedCoinsUsage + usage(coin);
      thrown := false;
    }

    method SpendCoin(o: OutPoint) returns (ok: bool, moveout: Coin)
      requires Shape() && base != null && Accounted() && usage(CLEARED) == 0
      modifies Repr
      ensures Accounted() && (Model(), ok, moveout) == CoinsStack.SpendCoin(old(Model()), o)
    {
      FetchCoin(o);
      if o !in cacheCoins { return false, CLEARED; }
      var e := cacheCoins[o];
      UsageRemove(usage, cacheCoins, o);
      UsageSet(usage, cacheCoins, o, Entry(CLEARED, true, false));
      cachedCoinsUsage := cachedCoinsUsage - usage(e.coin);
      moveout := e.coin;
      if e.isFresh {
        cacheCoins := cacheCoins - {o};
      } else {
        cacheCoins := cacheCoins[o := Entry(CLEARED, true, false)];
      }
      ok := true;
    }

    method Uncache(o: OutPoint)
      requires Shape() && base != null && Accounted()
      modifies this
      ensures Accounted() && Model() == CoinsStack.Uncache(old(Model()), o)
    {
      if o in cacheCoins && !cacheCoins[o].isDirty && !cacheCoins[o].isFresh {
        UsageRemove(usage, cacheCoins, o);
        cachedCoinsUsage := cachedCoinsUsage - usage(cacheCoins[o].coin);
        cacheCoins := cacheCoins - {o};
      }
    }

    /** The write-back into a cache. It throws exactly when some FRESH flag is misapplied. */
    method BatchWriteCache(mapCoins: Entries, hash: nat) returns (thrown: bool)
      requires Shape() && base != null && Accounted()
      modifies this
      ensures thrown <==> MergeThrows(old(cacheCoins), mapCoins)
      ensures !thrown ==> Accounted() && Model() == BatchWrite(old(Model()), mapCoins, hash)
    {
      hide Usage, Merge, Misapplied, MergedEntry, Split, SetOrRemove;
      ghost var mine := cacheCoins;
      ghost var done: Entries := map[];
      var left := mapCoins;
      MergeNothing(mine);
      SplitStart(mapCoins);
      while left != map[]
        invariant Split(mapCoins, done, left)
        invariant cacheCoins == Merge(mine, done)
        invariant forall o | o in done :: !Misapplied(Find(mine, o), done[o])
        invariant Accounted() && hashBlock == old(hashBlock)
        decreases |left|
      {
        var o :| o in left;
        var e := left[o];
        SplitMove(mapCoins, done, left, o);
        MergeStep(mine, done, o, e);
        var thrown_ := WriteEntry(o, e);
        if thrown_ { return true; }
        done := done[o := e];
        SmallerMap(left, o);
        left := left - {o};
      }
      SplitEnd(mapCoins, done, left);
      hashBlock := hash;
      thrown := false;
    }

    /** One round of the write-back loop. */
    method WriteEntry(o: OutPoint, e: Entry) returns (thrown: bool)
      requires Shape() && base != null && Accounted()
      modifies this
      ensures thrown <==> Misapplied(Find(old(cacheCoins), o), e)
      ensures !thrown ==> Accounted() && hashBlock == old(hashBlock)
      ensures !thrown ==> cacheCoins == SetOrRemove(old(cacheCoins), o, MergedEntry(Find(old(cacheCoins), o), e))
    {
      thrown := false;
      if !e.isDirty { assert o !in cacheCoins ==> cacheCoins - {o} == cacheCoins; return; }
      if o !in cacheCoins {
        if !(e.isFresh && e.coin.IsSpent()) {
          UsageSet(usage, cacheCoins, o, Entry(e.coin, true, e.isFresh));
          cacheCoins := cacheCoins[o := Entry(e.coin, true, e.isFresh)];
          cachedCoinsUsage := cachedCoinsUsage + usage(e.coin);
        } else {
          assert cacheCoins - {o} == cacheCoins;
        }
      } else {
        var us := cacheCoins[o];
        if e.isFresh && !us.coin.IsSpent() { return true; }
        if us.isFresh && e.coin.IsSpent() {
          UsageRemove(usage, cacheCoins, o);
          cachedCoinsUsage := cachedCoinsUsage - usage(us.coin);
          cacheCoins := cacheCoins - {o};
        } else {
          UsageSet(usage, cacheCoins, o, Entry(e.coin, true, us.isFresh));
          cachedCoinsUsage := cachedCoinsUsage - usage(us.coin);
          cacheCoins := cacheCoins[o := Entry(e.coin, true, us.isFresh)];
          cachedCoinsUsage := cachedCoinsUsage + usage(e.coin);
        }
      }
    }

    method BatchWriteDatabase(mapCoins: Entries, hash: nat)
      requires Shape() && base == null && hash != 0
      modifies this`coins, this`hashBlock
      ensures Model() == BatchWrite(old(Model()), mapCoins, hash)
    {
      hide Written, Split;
      ghost var before := coins;
      ghost var done: Entries := map[];
      var left := mapCoins;
      WrittenNothing(before);
      SplitStart(mapCoins);
      while left != map[]
        invariant Split(mapCoins, done, left)
        invariant coins == Written(before, done)
        decreases |left|
      {
        var o :| o in left;
        var e := left[o];
        SplitMove(mapCoins, done, left, o);
        WrittenStep(before, done, o, e);
        if e.isDirty {
          coins := if e.coin.IsSpent() then coins - {o} else coins[o := e.coin];
        }
        done := done[o := e];
        SmallerMap(left, o);
        left := left - {o};
      }
      SplitEnd(mapCoins, done, left);
      hashBlock := hash;
    }

    /** thrown: the cache below found a misapplied FRESH flag. A coherent cache flushes
        without an exception and its view does not change. */
    method Flush() returns (ok: bool, thrown: bool)
      requires Shape() && base != null && Accounted()
      requires base.base == null ==> hashBlock != 0
      modifies Repr
      ensures thrown <==> base.base != null && MergeThrows(old(base.cacheCoins), old(cacheCoins))
      ensures !thrown ==> ok && Accounted() && Model() == CoinsStack.Flush(old(Model()))
      ensures old(Coherent(Model())) ==> !thrown && Coherent(Model()) && View(Model()) == old(View(Model()))
    {
      hide Merge, Written, Over, View, Coherent, MergeThrows;
      ghost var s := Model();
      if Coherent(s) { FlushKeeps(s); }
      assert s.base == base.Model();
      assert base.base != null ==> base.Model() == Stack.Cache(base.cacheCoins, base.hashBlock, base.base.Model());
      ok, thrown := true, false;
      if base.base == null {
        base.BatchWriteDatabase(cacheCoins, hashBlock);
      } else {
        thrown := base.BatchWriteCache(cacheCoins, hashBlock);
      }
      if thrown { return; }
      cacheCoins := map[];
      cachedCoinsUsage := 0;
    }

    method SetBestBlock(hash: nat)
      requires Shape() && base != null && Accounted()
      modifies this`hashBlock
      ensures Accounted() && Model() == Stack.Cache(cacheCoins, hash, old(Model().base))
    {
      hashBlock := hash;
    }

    /** A cache without a hash of its own asks below and remembers the answer. */
    method GetBestBlock() returns (hash: nat)
      requires Shape() && Accounted()
      modifies Repr`hashBlock
      ensures Accounted() && hash == BestBlock(old(Model())) && Model() == Asked(old(Model()))
      decreases Repr
    {
      if base != null && hashBlock == 0 {
        var h := base.GetBestBlock();
        hashBlock := h;
      }
      hash := hashBlock;
    }

    method AddCoins(tx: Tx, check: bool) returns (thrown: bool)
      requires Shape() && base != null && Accounted()
      requires forall k | 0 <= k < |tx.outs| :: !tx.outs[k].IsSpent()
      modifies Repr
      ensures thrown <==> CoinsRuns.AddCoins(old(Model()), tx, check, 0).Thrown?
      ensures !thrown ==> Accounted() && Model() == CoinsRuns.AddCoins(old(Model()), tx, check, 0).s
    {
      hide Fetch, CoinsStack.AddCoin;
      ghost var r := CoinsRuns.AddCoins(Model(), tx, check, 0);
      var i := 0;
      while i < |tx.outs|
        invariant 0 <= i <= |tx.outs| && Accounted()
        invariant CoinsRuns.AddCoins(Model(), tx, check, i) == r
      {
        var o := OutPoint(tx.id, i);
        var overwrite := tx.coinBase;
        if check { overwrite := HaveCoin(o); }
        thrown := AddCoin(o, tx.outs[i], overwrite);
        if thrown { return; }
        i := i + 1;
      }
      thrown := false;
    }
  }

  function SetOrRemove(entries: Entries, o: OutPoint, e: Option<Entry>): Entries {
    match e
    case None => entries - {o}
    case Some(x) => entries[o := x]
  }

  /** A map cut in two while it is worked through. */
  ghost predicate Split(whole: Entries, done: Entries, left: Entries) {
    && (forall o :: o in whole <==> o in done || o in left)
    && (forall o | o in done :: o !in left && whole[o] == done[o])
    && (forall o | o in left :: whole[o] == left[o])
  }

  lemma SplitStart(whole: Entries)
    ensures Split(whole, map[], whole)
  {
  }

  lemma SplitMove(whole: Entries, done: Entries, left: Entries, o: OutPoint)
    requires Split(whole, done, left) && o in left
    ensures o !in done && o in whole && whole[o] == left[o]
    ensures Split(whole, done[o := left[o]], left - {o})
  {
  }

  lemma SplitEnd(whole: Entries, done: Entries, left: Entries)
    requires Split(whole, done, left) && left == map[]
    ensures done == whole
  {
  }

  lemma WrittenNothing(coins: Coins)
    ensures Written(coins, map[]) == coins
  {
  }

  lemma WrittenAt(coins: Coins, child: Entries, o: OutPoint)
    ensures o in Written(coins, child) <==> if o in child && child[o].isDirty then !child[o].coin.IsSpent() else o in coins
    ensures o in Written(coins, child) ==>
      Written(coins, child)[o] == if o in child && child[o].isDirty then child[o].coin else coins[o]
  {
  }

  lemma MergeNothing(mine: Entries)
    ensures Merge(mine, map[]) == mine
  {
  }

  lemma MergeStep(mine: Entries, done: Entries, o: OutPoint, e: Entry)
    requires o !in done
    ensures Find(Merge(mine, done), o) == Find(mine, o)
    ensures Merge(mine, done[o := e]) == SetOrRemove(Merge(mine, done), o, MergedEntry(Find(mine, o), e))
  {
    hide MergedEntry;
    MergeDomain(mine, done, o);
    forall q
      ensures Find(Merge(mine, done[o := e]), q) == Find(SetOrRemove(Merge(mine, done), o, MergedEntry(Find(mine, o), e)), q)
    {
      MergeDomain(mine, done, q);
      MergeDomain(mine, done[o := e], q);
    }
    FindEqual(Merge(mine, done[o := e]), SetOrRemove(Merge(mine, done), o, MergedEntry(Find(mine, o), e)));
  }

  lemma FindEqual(a: Entries, b: Entries)
    requires forall q :: Find(a, q) == Find(b, q)
    ensures a == b
  {
    forall q ensures q in a <==> q in b { assert Find(a, q) == Find(b, q); }
    forall q | q in a ensures a[q] == b[q] { assert Find(a, q) == Find(b, q); }
  }

  lemma WrittenStep(coins: Coins, done: Entries, o: OutPoint, e: Entry)
    requires o !in done
    ensures Written(coins, done[o := e]) ==
      if !e.isDirty then Written(coins, done)
      else if e.coin.IsSpent() then Written(coins, done) - {o} else Written(coins, done)[o := e.coin]
  {
    hide Written;
    var w := Written(coins, done);
    var r := if !e.isDirty then w else if e.coin.IsSpent() then w - {o} else w[o := e.coin];
    forall q ensures q in Written(coins, done[o := e]) <==> q in r
             ensures q in r ==> Written(coins, done[o := e])[q] == r[q]
    {
      WrittenAt(coins, done, q);
      WrittenAt(coins, done[o := e], q);
    }
  }
}
