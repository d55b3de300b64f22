/** Package selection for a block template: greedy by ancestor score, where the score
    order is left open, so that every result holds for any order. */
module BlockAssembler {
  import opened Consensus
  import opened Mempool

  const MAX_CONSECUTIVE_FAILURES := 1000

  /** Adjusted totals of a transaction some of whose ancestors are in the block. */
  datatype Modified = Modified(size: int, sigOps: int)

  // What a valid selection is

  predicate NoDuplicates(s: seq<Tx>) {
    forall i, j | 0 <= i < j < |s| :: s[i] != s[j]
  }

  function Elements(s: seq<Tx>): set<Tx> {
    set x | x in s
  }

  /** Every transaction comes after all its ancestors. */
  ghost predicate Ordered(p: Pool, s: seq<Tx>)
    requires p.Dag()
  {
    forall j | 0 <= j < |s| :: p.Ancestors(s[j]) <= Elements(s[..j])
  }

  ghost predicate Selection(p: Pool, s: seq<Tx>, inBlock: set<Tx>)
    requires p.Dag()
  {
    && NoDuplicates(s) && Elements(s) == inBlock && inBlock <= p.txs
    && Ordered(p, s) && Closed(p, inBlock)
  }

  lemma SelectionExtends(p: Pool, s: seq<Tx>, inBlock: set<Tx>, x: Tx)
    requires p.Dag() && Selection(p, s, inBlock)
    requires x in p.txs && x !in inBlock && p.Ancestors(x) <= inBlock
    ensures Selection(p, s + [x], inBlock + {x})
  {
    var r := s + [x];
    forall i, j | 0 <= i < j < |r| ensures r[i] != r[j] {
      assert i < |s| && r[i] == s[i] && s[i] in Elements(s);
    }
    forall j | 0 <= j < |r| ensures p.Ancestors(r[j]) <= Elements(r[..j]) {
      if j < |s| { assert r[..j] == s[..j] && r[j] == s[j]; } else { assert r[..j] == s; }
    }
    assert Elements(r) == Elements(s) + {x};
  }

  // Adjusted totals

  /** A total lies between what is left of the package and the whole package. */
  ghost predicate Within(f: Tx -> nat, total: int, package: set<Tx>, included: set<Tx>) {
    Sum(f, package - included) <= total <= Sum(f, package)
  }

  ghost predicate BoundOk(p: Pool, e: Modified, x: Tx, included: set<Tx>)
    requires p.Dag()
  {
    && x in p.txs && x !in included
    && Within(p.size, e.size, p.Closure(x), included)
    && Within(p.sigOps, e.sigOps, p.Closure(x), included)
  }

  ghost predicate Bounds(p: Pool, m: map<Tx, Modified>, included: set<Tx>)
    requires p.Dag()
  {
    forall x | x in m :: BoundOk(p, m[x], x, included)
  }

  lemma WithinStep(f: Tx -> nat, total: int, package: set<Tx>, included: set<Tx>, it: Tx)
    requires Within(f, total, package, included) && it in package && it !in included
    ensures Within(f, total - f(it), package, included + {it})
  {
    SumRemove(f, package - included, it);
    assert package - included - {it} == package - (included + {it});
  }

  lemma WithinFresh(f: Tx -> nat, package: set<Tx>, included: set<Tx>, it: Tx)
    requires it in package
    ensures Within(f, Sum(f, package) - f(it), package, included + {it})
  {
    SumRemove(f, package, it);
    SumSubset(f, package - (included + {it}), package - {it});
  }

  lemma WithinSame(f: Tx -> nat, total: int, package: set<Tx>, included: set<Tx>, it: Tx)
    requires Within(f, total, package, included) && it !in package
    ensures Within(f, total, package, included + {it})
  {
    assert package - (included + {it}) == package - included;
  }

  function Start(p: Pool, x: Tx): Modified {
    Modified(p.sizeWithAncestors(x), p.sigOpsWithAncestors(x))
  }

  function Reduced(p: Pool, e: Modified, it: Tx): Modified {
    Modified(e.size - p.size(it), e.sigOps - p.sigOps(it))
  }

  /** The totals kept for x: adjusted ones if there are any, else those of the pool. */
  function Entry(p: Pool, m: map<Tx, Modified>, x: Tx): Modified {
    if x in m then m[x] else Start(p, x)
  }

  /** Taking out one more included ancestor keeps the bound, whether the entry is
      adjusted again or adjusted for the first time. */
  lemma BoundStep(p: Pool, e: Modified, x: Tx, included: set<Tx>, it: Tx)
    requires p.Valid() && BoundOk(p, e, x, included) && it in p.Ancestors(x) && it !in included
    ensures BoundOk(p, Reduced(p, e, it), x, included + {it})
  {
    AncestorFacts(p, x, it);
    WithinStep(p.size, e.size, p.Closure(x), included, it);
    WithinStep(p.sigOps, e.sigOps, p.Closure(x), included, it);
  }

  lemma BoundFresh(p: Pool, x: Tx, included: set<Tx>, it: Tx)
    requires p.Valid() && x in p.txs && x !in included && it in p.Ancestors(x)
    ensures BoundOk(p, Reduced(p, Start(p, x), it), x, included + {it})
  {
    AncestorFacts(p, x, it);
    WithinFresh(p.size, p.Closure(x), included, it);
    WithinFresh(p.sigOps, p.Closure(x), included, it);
  }

  lemma BoundSame(p: Pool, e: Modified, x: Tx, included: set<Tx>, it: Tx)
    requires p.Dag() && BoundOk(p, e, x, included) && it !in p.Ancestors(x) && it != x
    ensures BoundOk(p, e, x, included + {it})
  {
    WithinSame(p.size, e.size, p.Closure(x), included, it);
    WithinSame(p.sigOps, e.sigOps, p.Closure(x), included, it);
  }

  // When the totals are exact

  /** The totals of what is left of x's package once some transactions are in the block. */
  ghost function Left(p: Pool, x: Tx, included: set<Tx>): Modified
    requires p.Dag()
  {
    Modified(Sum(p.size, p.Closure(x) - included), Sum(p.sigOps, p.Closure(x) - included))
  }

  ghost predicate EntryExact(p: Pool, m: map<Tx, Modified>, included: set<Tx>, x: Tx)
    requires p.Dag()
  {
    if x in m then m[x] == Left(p, x, included) else p.Ancestors(x) !! included
  }

  /** But for the exempt ones, the totals kept are exactly those of what is left, and
      transactions without adjusted totals have nothing in the block to adjust for. */
  ghost predicate Exact(p: Pool, m: map<Tx, Modified>, included: set<Tx>, exempt: set<Tx>)
    requires p.Dag()
  {
    forall x | x in p.txs && x !in included && x !in exempt :: EntryExact(p, m, included, x)
  }

  lemma LeftStart(p: Pool, x: Tx, included: set<Tx>)
    requires p.Valid() && x in p.txs && x !in included && p.Ancestors(x) !! included
    ensures Left(p, x, included) == Start(p, x)
  {
    assert p.Closure(x) - included == p.Closure(x);
  }

  lemma EntryIsLeft(p: Pool, m: map<Tx, Modified>, included: set<Tx>, exempt: set<Tx>, x: Tx)
    requires p.Valid() && Exact(p, m, included, exempt) && x in p.txs && x !in included && x !in exempt
    ensures Entry(p, m, x) == Left(p, x, included)
  {
    assert EntryExact(p, m, included, x);
    if x !in m { LeftStart(p, x, included); }
  }

  lemma LeftStep(p: Pool, x: Tx, included: set<Tx>, it: Tx)
    requires p.Dag() && it in p.Closure(x) && it !in included
    ensures Left(p, x, included + {it}) == Reduced(p, Left(p, x, included), it)
  {
    SumRemove(p.size, p.Closure(x) - included, it);
    SumRemove(p.sigOps, p.Closure(x) - included, it);
    assert p.Closure(x) - included - {it} == p.Closure(x) - (included + {it});
  }

  /** Adjusting all dependents of one more transaction keeps the totals exact. */
  lemma ExactStep(p: Pool, m: map<Tx, Modified>, included: set<Tx>, exempt: set<Tx>, it: Tx, added: set<Tx>)
    requires p.Valid() && Exact(p, m, included, exempt) && it !in included && it in added && added <= exempt
    ensures Exact(p, Adjusted(p, m, it, p.Descendants(it) - added), included + {it}, exempt)
  {
    hide Pool.Dag, Pool.Ancestors, Pool.Closure, Pool.Descendants, Exact, EntryExact, Reduced, Left, Start, Entry;
    var u := Adjusted(p, m, it, p.Descendants(it) - added);
    forall x | x in p.txs && x !in included + {it} && x !in exempt ensures EntryExact(p, u, included + {it}, x) {
      DescendantFacts(p, it, x);
      ClosureParts(p, x);
      EntryIsLeft(p, m, included, exempt, x);
      ExactHere(p, m, included, exempt, x);
      if x in p.Descendants(it) {
        LeftStep(p, x, included, it);
        EntrySet(p, u, included + {it}, x);
      } else {
        NotLeftStep(p, m, u, x, included, it);
      }
    }
    ExactAll(p, u, included + {it}, exempt);
  }

  lemma ExactHere(p: Pool, m: map<Tx, Modified>, included: set<Tx>, exempt: set<Tx>, x: Tx)
    requires p.Dag() && Exact(p, m, included, exempt) && x in p.txs && x !in included && x !in exempt
    ensures EntryExact(p, m, included, x)
  {
  }

  lemma ExactAll(p: Pool, m: map<Tx, Modified>, included: set<Tx>, exempt: set<Tx>)
    requires p.Dag()
    requires forall x | x in p.txs && x !in included && x !in exempt :: EntryExact(p, m, included, x)
    ensures Exact(p, m, included, exempt)
  {
  }

  lemma EntrySet(p: Pool, m: map<Tx, Modified>, included: set<Tx>, x: Tx)
    requires p.Dag() && x in m && m[x] == Left(p, x, included)
    ensures EntryExact(p, m, included, x)
  {
  }

  lemma NotLeftStep(p: Pool, m0: map<Tx, Modified>, m: map<Tx, Modified>, x: Tx, included: set<Tx>, it: Tx)
    requires p.Dag() && EntryExact(p, m0, included, x) && it !in p.Closure(x)
    requires (x in m <==> x in m0) && (x in m ==> m[x] == m0[x])
    ensures EntryExact(p, m, included + {it}, x)
  {
    assert p.Closure(x) - (included + {it}) == p.Closure(x) - included;
  }

  /** The totals with those of some dependents of it adjusted. */
  function Adjusted(p: Pool, m: map<Tx, Modified>, it: Tx, done: set<Tx>): (r: map<Tx, Modified>)
    ensures r.Keys == m.Keys + done
  {
    map x | x in m.Keys + done :: if x in done then Reduced(p, Entry(p, m, x), it) else m[x]
  }

  lemma AdjustedNext(p: Pool, m: map<Tx, Modified>, it: Tx, done: set<Tx>, d: Tx)
    requires d !in done
    ensures Adjusted(p, m, it, done + {d}) == Adjusted(p, m, it, done)[d := Reduced(p, Entry(p, Adjusted(p, m, it, done), d), it)]
  {
    hide Reduced, Start;
  }

  lemma AdjustedNone(p: Pool, m: map<Tx, Modified>, it: Tx)
    ensures Adjusted(p, m, it, {}) == m
  {
  }

  /** Updates the totals of every transaction that depends on it and is not itself
      being added. */
  method UpdateDescendants(p: Pool, it: Tx, alreadyAdded: set<Tx>, m0: map<Tx, Modified>) returns (m: map<Tx, Modified>, n: nat)
    requires p.Dag()
    ensures m == Adjusted(p, m0, it, p.Descendants(it) - alreadyAdded) && n == |p.Descendants(it) - alreadyAdded|
  {
    hide Pool.Dag, Pool.Descendants, Start, Reduced, Adjusted, Entry, Worked;
    m, n := m0, 0;
    AdjustedNone(p, m0, it);
    var left := p.Descendants(it);
    ghost var done := {};
    WorkedNone(left, alreadyAdded);
    while left != {}
      invariant Worked(p.Descendants(it), left, alreadyAdded, done)
      invariant m == Adjusted(p, m0, it, done) && n == |done|
      decreases left
    {
      PickExists(left);
      var desc :| desc in left;
      WorkedNext(p.Descendants(it), left, alreadyAdded, done, desc);
      left := left - {desc};
      if desc !in alreadyAdded {
        AdjustedNext(p, m0, it, done, desc);
        done := done + {desc};
        n := n + 1;
        m := Adjust(p, m, it, desc);
      }
    }
    WorkedAll(p.Descendants(it), alreadyAdded, done);
  }

  /** What was worked off, but for some to be skipped, while the rest is left. */
  ghost predicate Worked(all: set<Tx>, left: set<Tx>, skip: set<Tx>, done: set<Tx>) {
    left <= all && done == all - left - skip
  }

  lemma WorkedNone(all: set<Tx>, skip: set<Tx>)
    ensures Worked(all, all, skip, {})
  {
  }

  lemma WorkedNext(all: set<Tx>, left: set<Tx>, skip: set<Tx>, done: set<Tx>, x: Tx)
    requires Worked(all, left, skip, done) && x in left
    ensures if x in skip then Worked(all, left - {x}, skip, done) else Worked(all, left - {x}, skip, done + {x})
    ensures x !in done && |done + {x}| == |done| + 1
  {
  }

  lemma WorkedAll(all: set<Tx>, skip: set<Tx>, done: set<Tx>)
    requires Worked(all, {}, skip, done)
    ensures done == all - skip
  {
  }

  /** One dependent's totals are created or adjusted again. */
  method Adjust(p: Pool, m0: map<Tx, Modified>, it: Tx, desc: Tx) returns (m: map<Tx, Modified>)
    ensures m == m0[desc := Reduced(p, Entry(p, m0, desc), it)]
  {
    if desc !in m0 {
      m := m0[desc := Reduced(p, Start(p, desc), it)];
    } else {
      m := m0[desc := Reduced(p, m0[desc], it)];
    }
  }

  /** The bounds after every dependent of it was adjusted. */
  lemma BoundsAdjusted(p: Pool, m: map<Tx, Modified>, included: set<Tx>, it: Tx, added: set<Tx>)
    requires p.Valid() && Bounds(p, m, included) && it !in included && it in added && m.Keys !! added
    requires p.Descendants(it) - added !! included
    ensures Bounds(p, Adjusted(p, m, it, p.Descendants(it) - added), included + {it})
  {
    hide BoundOk, Pool.Dag, Pool.Descendants, Pool.Ancestors, Start, Reduced;
    var done := p.Descendants(it) - added;
    forall x | x in m.Keys + done ensures BoundOk(p, Adjusted(p, m, it, done)[x], x, included + {it}) {
      DescendantFacts(p, it, x);
      if x in m { BoundMember(p, m[x], x, included); }
      if x !in done {
        assert x in m.Keys;
        BoundSame(p, m[x], x, included, it);
      } else if x in m {
        BoundStep(p, m[x], x, included, it);
      } else {
        BoundFresh(p, x, included, it);
      }
    }
  }

  lemma DescendantFacts(p: Pool, it: Tx, d: Tx)
    requires p.Dag()
    ensures d in p.Descendants(it) <==> d in p.txs && (d == it || it in p.Ancestors(d))
  {
  }

  lemma BoundMember(p: Pool, e: Modified, x: Tx, included: set<Tx>)
    requires p.Dag() && BoundOk(p, e, x, included)
    ensures x in p.txs && x !in included
  {
  }

  /** Tells every dependent transaction that the given ones are now in the block. */
  method UpdatePackagesForAdded(p: Pool, alreadyAdded: set<Tx>, m0: map<Tx, Modified>, ghost before: set<Tx>,
                                ghost exempt: set<Tx>)
    returns (m: map<Tx, Modified>, nDescendantsUpdated: nat)
    requires p.Valid() && Bounds(p, m0, before) && alreadyAdded !! before && Closed(p, before)
    requires forall x | x in m0 :: x !in alreadyAdded
    requires Exact(p, m0, before, exempt + alreadyAdded)
    ensures Bounds(p, m, before + alreadyAdded) && Exact(p, m, before + alreadyAdded, exempt)
    ensures m0.Keys <= m.Keys && m.Keys !! alreadyAdded
    ensures forall d :: d in m <==> d in m0 || (d !in alreadyAdded && DependsOn(p, d, alreadyAdded))
  {
    hide Bounds, Pool.Dag, Pool.Descendants, Exact, Adjusted, DependsOn, Reaches;
    m, nDescendantsUpdated := m0, 0;
    var left := alreadyAdded;
    ghost var done := {};
    UpdatesStart(p, m0, alreadyAdded, before);
    while left != {}
      invariant left <= alreadyAdded && done == alreadyAdded - left
      invariant Bounds(p, m, before + done) && Exact(p, m, before + done, exempt + alreadyAdded)
      invariant Reaches(p, m0, m, alreadyAdded, done)
      decreases left
    {
      PickExists(left);
      var it :| it in left;
      UpdatesStep(p, m0, m, alreadyAdded, before, exempt, done, it);
      var n: nat;
      m, n := UpdateDescendants(p, it, alreadyAdded, m);
      left := left - {it};
      done := done + {it};
      nDescendantsUpdated := nDescendantsUpdated + n;
    }
    assert done == alreadyAdded;
    UpdatesEnd(p, m0, m, alreadyAdded, before, exempt);
  }

  /** The entries are the old ones and the dependents of those worked off. */
  ghost predicate Reaches(p: Pool, m0: map<Tx, Modified>, m: map<Tx, Modified>, added: set<Tx>, done: set<Tx>)
    requires p.Dag()
  {
    && m0.Keys <= m.Keys && m.Keys !! added
    && (forall d :: d in m.Keys <==> d in m0.Keys || (d !in added && DependsOn(p, d, done)))
  }

  lemma UpdatesStart(p: Pool, m: map<Tx, Modified>, added: set<Tx>, before: set<Tx>)
    requires p.Dag() && m.Keys !! added
    ensures Reaches(p, m, m, added, {}) && before + {} == before
  {
    DependsOnNone(p);
  }

  lemma UpdatesStep(p: Pool, m0: map<Tx, Modified>, m: map<Tx, Modified>, added: set<Tx>, before: set<Tx>, exempt: set<Tx>,
                    done: set<Tx>, it: Tx)
    requires p.Valid() && Closed(p, before) && added !! before && done <= added && it in added && it !in done
    requires Bounds(p, m, before + done) && Exact(p, m, before + done, exempt + added) && Reaches(p, m0, m, added, done)
    ensures var u := Adjusted(p, m, it, p.Descendants(it) - added);
      && Bounds(p, u, before + (done + {it})) && Exact(p, u, before + (done + {it}), exempt + added)
      && Reaches(p, m0, u, added, done + {it})
  {
    hide Bounds, Pool.Dag, Pool.Descendants, Exact, DependsOn, Adjusted;
    assert before + done + {it} == before + (done + {it});
    DependentsOutside(p, it, before);
    BoundsAdjusted(p, m, before + done, it, added);
    ExactStep(p, m, before + done, exempt + added, it, added);
    DependsOnStep(p, done, it);
  }

  lemma UpdatesEnd(p: Pool, m0: map<Tx, Modified>, m: map<Tx, Modified>, added: set<Tx>, before: set<Tx>, exempt: set<Tx>)
    requires p.Dag() && Reaches(p, m0, m, added, added) && Exact(p, m, before + added, exempt + added)
    ensures m0.Keys <= m.Keys && m.Keys !! added && Exact(p, m, before + added, exempt)
    ensures forall d :: d in m <==> d in m0 || (d !in added && DependsOn(p, d, added))
  {
    hide Exact, DependsOn;
    ExactFewer(p, m, before + added, exempt + added, exempt);
    assert forall d :: d in m <==> d in m.Keys;
  }

  lemma DependsOnNone(p: Pool)
    requires p.Dag()
    ensures forall d :: !DependsOn(p, d, {})
  {
  }

  lemma ExactFewer(p: Pool, m: map<Tx, Modified>, included: set<Tx>, exempt: set<Tx>, fewer: set<Tx>)
    requires p.Dag() && Exact(p, m, included, exempt) && exempt <= included + fewer
    ensures Exact(p, m, included, fewer)
  {
    hide EntryExact;
  }

  /** Totals dropped for exempt transactions do not matter. */
  lemma ExactRestrict(p: Pool, m: map<Tx, Modified>, included: set<Tx>, exempt: set<Tx>, gone: set<Tx>)
    requires p.Dag() && Exact(p, m, included, exempt)
    ensures Exact(p, m - gone, included, exempt + gone)
  {
    forall x | x in p.txs && x !in included && x !in exempt + gone ensures EntryExact(p, m - gone, included, x) {
      assert EntryExact(p, m, included, x);
    }
  }

  ghost predicate DependsOn(p: Pool, d: Tx, s: set<Tx>)
    requires p.Dag()
  {
    exists it :: it in s && d in p.Descendants(it)
  }

  lemma DependsOnStep(p: Pool, s: set<Tx>, it: Tx)
    requires p.Dag()
    ensures forall d :: DependsOn(p, d, s + {it}) <==> DependsOn(p, d, s) || d in p.Descendants(it)
  {
    hide Pool.Descendants, Pool.Dag;
    forall d ensures DependsOn(p, d, s + {it}) <==> DependsOn(p, d, s) || d in p.Descendants(it) {
      if d in p.Descendants(it) { assert it in s + {it}; }
    }
  }

  /** What depends on a transaction outside a closed set is outside it too. */
  lemma DependentsOutside(p: Pool, it: Tx, before: set<Tx>)
    requires p.Dag() && Closed(p, before) && it !in before
    ensures p.Descendants(it) !! before
  {
    forall d | d in before ensures d !in p.Descendants(it) {
      assert p.Ancestors(d) <= before;
    }
  }

  // Ordering a package

  function AncestorsOf(p: Pool, x: Tx): nat
    requires p.Dag()
  {
    |p.Ancestors(x)|
  }

  ghost predicate Least(p: Pool, s: set<Tx>, x: Tx)
    requires p.Dag()
  {
    x in s && forall y | y in s :: AncestorsOf(p, x) <= AncestorsOf(p, y)
  }

  ghost predicate SortedByAncestors(p: Pool, s: seq<Tx>)
    requires p.Dag()
  {
    forall i, j | 0 <= i < j < |s| :: AncestorsOf(p, s[i]) <= AncestorsOf(p, s[j])
  }

  lemma {:induction false} LeastExists(p: Pool, s: set<Tx>)
    requires p.Dag() && s != {}
    ensures exists x :: Least(p, s, x)
    decreases s
  {
    hide AncestorsOf, Pool.Dag;
    PickExists(s);
    var x :| x in s;
    if s == {x} {
      assert Least(p, s, x);
    } else {
      LeastExists(p, s - {x});
      var y :| Least(p, s - {x}, y);
      assert Least(p, s, if AncestorsOf(p, x) <= AncestorsOf(p, y) then x else y);
    }
  }

  /** Sorts a package by ancestor count; ties are broken in any way. */
  method SortForBlock(p: Pool, package: set<Tx>) returns (s: seq<Tx>)
    requires p.Dag()
    ensures NoDuplicates(s) && Elements(s) == package && SortedByAncestors(p, s)
  {
    hide Pool.Dag, AncestorsOf;
    s := [];
    var left := package;
    while left != {}
      invariant left <= package && Elements(s) == package - left && NoDuplicates(s)
      invariant SortedByAncestors(p, s)
      invariant forall i, y | 0 <= i < |s| && y in left :: AncestorsOf(p, s[i]) <= AncestorsOf(p, y)
      decreases left
    {
      LeastExists(p, left);
      var x :| x in left && forall y | y in left :: AncestorsOf(p, x) <= AncestorsOf(p, y);
      forall i | 0 <= i < |s| ensures s[i] != x { assert s[i] in Elements(s); }
      assert Elements(s + [x]) == Elements(s) + {x};
      s := s + [x];
      left := left - {x};
    }
  }

  /** In a package sorted by ancestor count, ancestors come first. */
  lemma SortedOrdered(p: Pool, s: seq<Tx>, j: nat, a: Tx)
    requires p.Dag() && j < |s| && a in s && a in p.Ancestors(s[j]) && SortedByAncestors(p, s)
    ensures a in s[..j]
  {
    AncestorCount(p, s[j], a);
    forall k | j <= k < |s| ensures s[k] != a {
      assert AncestorsOf(p, s[j]) <= AncestorsOf(p, s[k]);
    }
    var i :| 0 <= i < |s| && s[i] == a;
    assert s[..j][i] == a;
  }

  // The assembler

  /** Why a transaction is left out: something in its package is not final, or the
      whole package cannot fit beside what is in the block. */
  ghost predicate LeftOut(p: Pool, x: Tx, weight: nat, sigOpsCost: nat, maxWeight: nat)
    requires p.Dag()
  {
    || (exists y :: y in p.Closure(x) && !p.isFinal(y))
    || weight + WITNESS_SCALE_FACTOR * p.sizeWithAncestors(x) >= maxWeight
    || sigOpsCost + p.sigOpsWithAncestors(x) >= MAX_BLOCK_SIGOPS_COST
  }

  /** The totals of x with all its ancestors do not fit beside what is in the block. */
  ghost predicate TooLarge(p: Pool, x: Tx, weight: nat, sigOpsCost: nat, maxWeight: nat) {
    || weight + WITNESS_SCALE_FACTOR * p.sizeWithAncestors(x) >= maxWeight
    || sigOpsCost + p.sigOpsWithAncestors(x) >= MAX_BLOCK_SIGOPS_COST
  }

  /** What is left of x's package cannot join a block of the transactions s: something in it is
      not final, or it does not fit. */
  ghost predicate NoRoom(p: Pool, x: Tx, s: seq<Tx>, maxWeight: nat)
    requires p.Dag()
  {
    var left := Left(p, x, Elements(s));
    || (exists y :: y in p.Closure(x) && !p.isFinal(y))
    || 4000 + Sum(p.weight, Elements(s)) + WITNESS_SCALE_FACTOR * left.size >= maxWeight
    || 400 + Sum(p.sigOps, Elements(s)) + left.sigOps >= MAX_BLOCK_SIGOPS_COST
  }

  /** At some stage of filling the block there was no room for x. */
  ghost predicate TurnedAway(p: Pool, x: Tx, s: seq<Tx>, maxWeight: nat)
    requires p.Dag()
  {
    exists n :: 0 <= n <= |s| && NoRoom(p, x, s[..n], maxWeight)
  }

  ghost predicate AllTurnedAway(p: Pool, xs: set<Tx>, s: seq<Tx>, maxWeight: nat)
    requires p.Dag()
  {
    forall x | x in xs :: TurnedAway(p, x, s, maxWeight)
  }

  lemma TurnedAwayLater(p: Pool, xs: set<Tx>, s: seq<Tx>, s2: seq<Tx>, maxWeight: nat)
    requires p.Dag() && AllTurnedAway(p, xs, s, maxWeight) && s <= s2
    ensures AllTurnedAway(p, xs, s2, maxWeight)
  {
    hide NoRoom;
    forall x | x in xs ensures TurnedAway(p, x, s2, maxWeight) {
      assert TurnedAway(p, x, s, maxWeight);
      var n :| 0 <= n <= |s| && NoRoom(p, x, s[..n], maxWeight);
      assert s2[..n] == s[..n];
    }
  }

  lemma TurnAway(p: Pool, xs: set<Tx>, x: Tx, s: seq<Tx>, maxWeight: nat)
    requires p.Dag() && AllTurnedAway(p, xs, s, maxWeight) && (x !in xs ==> NoRoom(p, x, s, maxWeight))
    ensures AllTurnedAway(p, xs + {x}, s, maxWeight)
  {
    hide NoRoom;
    assert s[..|s|] == s;
    if x !in xs { assert TurnedAway(p, x, s, maxWeight); }
  }

  /** A package whose totals fit fits in the block. */
  lemma PackageFits(p: Pool, e: Modified, x: Tx, inBlock: set<Tx>)
    requires p.Valid() && BoundOk(p, e, x, inBlock)
    ensures Sum(p.weight, p.Closure(x) - inBlock) <= WITNESS_SCALE_FACTOR * e.size
    ensures Sum(p.sigOps, p.Closure(x) - inBlock) <= e.sigOps
    ensures e.size <= p.sizeWithAncestors(x) && e.sigOps <= p.sigOpsWithAncestors(x)
  {
    var package := p.Closure(x) - inBlock;
    forall y | y in package ensures p.weight(y) <= 4 * p.size(y) {
      if y != x { AncestorFacts(p, x, y); }
    }
    SumBound(p.weight, p.size, package);
  }

  lemma StartBound(p: Pool, x: Tx, inBlock: set<Tx>)
    requires p.Valid() && x in p.txs && x !in inBlock
    ensures BoundOk(p, Start(p, x), x, inBlock)
  {
    SumSubset(p.size, p.Closure(x) - inBlock, p.Closure(x));
    SumSubset(p.sigOps, p.Closure(x) - inBlock, p.Closure(x));
  }

  class Assembler {
    const pool: Pool
    const nBlockMaxWeight: nat
    var vtx: seq<Tx>
    var inBlock: set<Tx>
    var nBlockWeight: nat
    var nBlockTx: nat
    var nBlockSigOpsCost: nat

    /** The block is a valid selection, counted exactly. */
    ghost predicate Valid()
      reads this
    {
      && pool.Valid()
      && Selection(pool, vtx, inBlock)
      && nBlockTx == |vtx|
      && nBlockWeight == 4000 + Sum(pool.weight, inBlock)
      && nBlockSigOpsCost == 400 + Sum(pool.sigOps, inBlock)
    }

    ghost predicate WithinLimits()
      reads this
    {
      nBlockWeight <= nBlockMaxWeight && nBlockSigOpsCost < MAX_BLOCK_SIGOPS_COST
    }

    constructor (p: Pool, maxWeightOption: nat)
      requires p.Valid()
      ensures Valid() && WithinLimits() && vtx == [] && pool == p
      ensures 4000 <= nBlockMaxWeight <= MAX_BLOCK_WEIGHT - 4000
    {
      pool := p;
      var capped := if maxWeightOption < MAX_BLOCK_WEIGHT - 4000 then maxWeightOption else MAX_BLOCK_WEIGHT - 4000;
      nBlockMaxWeight := if capped > 4000 then capped else 4000;
      vtx, inBlock := [], {};
      nBlockWeight, nBlockTx, nBlockSigOpsCost := 4000, 0, 400;
    }

    predicate TestPackage(packageSize: int, packageSigOpsCost: int)
      reads this
    {
      && nBlockWeight + WITNESS_SCALE_FACTOR * packageSize < nBlockMaxWeight
      && nBlockSigOpsCost + packageSigOpsCost < MAX_BLOCK_SIGOPS_COST
    }

    /** Whether every transaction of a package is final. */
    method TestPackageTransactions(package: set<Tx>) returns (ok: bool)
      ensures ok <==> forall y | y in package :: pool.isFinal(y)
    {
      var left := package;
      while left != {}
        invariant left <= package && forall y | y in package - left :: pool.isFinal(y)
        decreases left
      {
        PickExists(left);
        var it :| it in left;
        if !pool.isFinal(it) { return false; }
        left := left - {it};
      }
      return true;
    }

    /** Removes what is already in the block from a set. */
    method OnlyUnconfirmed(testSet: set<Tx>) returns (r: set<Tx>)
      ensures r == testSet - inBlock
    {
      r := testSet;
      var left := testSet;
      while left != {}
        invariant left <= testSet && r == testSet - ((testSet - left) * inBlock)
        decreases left
      {
        PickExists(left);
        var it :| it in left;
        if it in inBlock { r := r - {it}; }
        left := left - {it};
      }
    }

    method AddToBlock(x: Tx)
      requires Valid() && x in pool.txs && x !in inBlock && pool.Ancestors(x) <= inBlock
      modifies this
      ensures Valid() && vtx == old(vtx) + [x] && inBlock == old(inBlock) + {x}
    {
      hide Selection, Sum, Pool.Ancestors, Pool.Dag, Pool.Valid, NoDuplicates, Elements;
      Counted();
      SelectionExtends(pool, vtx, inBlock, x);
      SumRemove(pool.weight, inBlock + {x}, x);
      SumRemove(pool.sigOps, inBlock + {x}, x);
      assert inBlock + {x} - {x} == inBlock;
      vtx := vtx + [x];
      nBlockWeight := nBlockWeight + pool.weight(x);
      nBlockTx := nBlockTx + 1;
      nBlockSigOpsCost := nBlockSigOpsCost + pool.sigOps(x);
      inBlock := inBlock + {x};
    }

    lemma Counted()
      requires Valid()
      ensures pool.Valid() && pool.Dag() && Elements(vtx) == inBlock
      ensures nBlockWeight == 4000 + Sum(pool.weight, inBlock) && nBlockSigOpsCost == 400 + Sum(pool.sigOps, inBlock)
    {
    }

    /** Adds x with its ancestors that are not in the block yet. */
    method AddPackage(package: set<Tx>, x: Tx, m0: map<Tx, Modified>) returns (m: map<Tx, Modified>)
      requires Valid() && x in pool.txs && package == pool.Closure(x) - inBlock
      modifies this
      ensures Valid() && inBlock == old(inBlock) + package && old(vtx) <= vtx
      ensures nBlockWeight == old(nBlockWeight) + Sum(pool.weight, package)
      ensures nBlockSigOpsCost == old(nBlockSigOpsCost) + Sum(pool.sigOps, package)
      ensures m == m0 - package
    {
      hide Pool.Dag, Pool.Valid, Pool.Ancestors, Selection, Valid, NoDuplicates, SortedByAncestors, Elements;
      Counted();
      ghost var before := inBlock;
      var sortedEntries := SortForBlock(pool, package);
      m := m0;
      assert Elements(sortedEntries[..0]) == {} by { ElementsNone(sortedEntries); }
      for i := 0 to |sortedEntries|
        invariant Valid() && inBlock == before + Elements(sortedEntries[..i]) && old(vtx) <= vtx
        invariant m == m0 - Elements(sortedEntries[..i])
      {
        var y := sortedEntries[i];
        PackageOrder(pool, before, package, x, sortedEntries, i);
        ElementsNext(sortedEntries, i);
        AddToBlock(y);
        m := m - {y};
      }
      Counted();
      assert sortedEntries[..|sortedEntries|] == sortedEntries;
      SumSplit(pool.weight, before, package);
      SumSplit(pool.sigOps, before, package);
    }

    /** The body of the selection loop for one candidate, whose totals are e. It
        reports whether the package was added. */
    method Consider(x: Tx, e: Modified, m0: map<Tx, Modified>, ghost rejected: set<Tx>)
      returns (fits: bool, added: bool, m: map<Tx, Modified>, n: nat)
      requires Valid() && WithinLimits() && Bounds(pool, m0, inBlock) && BoundOk(pool, e, x, inBlock)
      requires Exact(pool, m0, inBlock, rejected) && (x !in rejected ==> e == Left(pool, x, inBlock))
      modifies this
      ensures Valid() && WithinLimits() && Bounds(pool, m, inBlock) && old(vtx) <= vtx
      ensures Exact(pool, m, inBlock, rejected)
      ensures nBlockWeight >= old(nBlockWeight) && nBlockSigOpsCost >= old(nBlockSigOpsCost)
      ensures fits <==> old(TestPackage(e.size, e.sigOps))
      ensures added <==> fits && forall y | y in pool.Closure(x) - old(inBlock) :: pool.isFinal(y)
      ensures added ==> inBlock == old(inBlock) + pool.Closure(x) && m0.Keys <= m.Keys + inBlock
      ensures added ==> nBlockWeight < nBlockMaxWeight
      ensures !added ==> m == m0 && unchanged(this)
      ensures !added ==> LeftOut(pool, x, nBlockWeight, nBlockSigOpsCost, nBlockMaxWeight)
      ensures !fits ==> TooLarge(pool, x, nBlockWeight, nBlockSigOpsCost, nBlockMaxWeight)
      ensures !added && x !in rejected ==> NoRoom(pool, x, vtx, nBlockMaxWeight)
    {
      hide Pool.Dag, Pool.Valid, Pool.Ancestors, Pool.Closure, Valid, Bounds, BoundOk, DependsOn, Exact, Left, Elements;
      Counted();
      m, n, added := m0, 0, false;
      PackageFits(pool, e, x, inBlock);
      BoundMember(pool, e, x, inBlock);
      fits := TestPackage(e.size, e.sigOps);
      if !fits { return; }
      ClosureParts(pool, x);
      var ancestors := OnlyUnconfirmed(pool.Ancestors(x));
      ancestors := ancestors + {x};
      assert ancestors == pool.Closure(x) - inBlock;
      var ok := TestPackageTransactions(ancestors);
      if !ok { return; }
      ghost var before := inBlock;
      InBlockClosed();
      m := AddPackage(ancestors, x, m0);
      BoundsRestrict(pool, m0, before, ancestors);
      ExactRestrict(pool, m0, before, rejected, ancestors);
      m, n := UpdatePackagesForAdded(pool, ancestors, m, before, rejected);
      assert inBlock == before + ancestors;
      added := true;
    }

    lemma InBlockClosed()
      requires Valid()
      ensures pool.Dag() && Closed(pool, inBlock)
    {
    }

    /** The next transaction to evaluate, from the index or from the modified entries. */
    method Candidate(order: seq<Tx>, mi: nat, m: map<Tx, Modified>, ghost rejected: set<Tx>)
      returns (iter: Tx, totals: Modified, fUsingModified: bool)
      requires Valid() && Bounds(pool, m, inBlock) && Elements(order) == pool.txs && mi <= |order|
      requires mi < |order| || m != map[]
      requires mi < |order| ==> order[mi] !in inBlock && order[mi] !in m
      requires Exact(pool, m, inBlock, rejected)
      ensures iter !in rejected ==> totals == Left(pool, iter, inBlock)
      ensures BoundOk(pool, totals, iter, inBlock) && iter !in inBlock && iter in pool.txs
      ensures fUsingModified ==> iter in m && totals == m[iter]
      ensures !fUsingModified ==> mi < |order| && iter == order[mi] && totals == Start(pool, iter)
    {
      fUsingModified := mi == |order|;
      if m != map[] {
        var modifiedIsBetter: bool := *;
        if modifiedIsBetter { fUsingModified := true; }
      }
      if fUsingModified {
        assert m.Keys != {};
        PickExists(m.Keys);
        iter :| iter in m;
        totals := m[iter];
      } else {
        iter := order[mi];
        assert iter in Elements(order);
        StartBound(pool, iter, inBlock);
        totals := Start(pool, iter);
      }
      if iter !in rejected { EntryIsLeft(pool, m, inBlock, rejected, iter); }
    }

    /** The selection loop. order is the pool's index by ancestor score. The choice of
        the best modified entry, and whether it beats the next pool entry, are left
        open. When the loop does not give up early, every transaction that is not in
        the block was turned away when exactly what was left of its package had no room,
        and its whole package has none still. It gives up only when the block is nearly
        full and more than a thousand transactions in a row were too large; failing
        are those. */
    method AddPackageTxs(order: seq<Tx>)
      returns (nPackagesSelected: nat, nDescendantsUpdated: nat, gaveUp: bool, ghost failing: set<Tx>)
      requires Valid() && WithinLimits() && Elements(order) == pool.txs && NoDuplicates(order)
      modifies this
      ensures Valid() && WithinLimits() && old(vtx) <= vtx
      ensures nPackagesSelected <= |vtx| - |old(vtx)| && (nPackagesSelected == 0 ==> vtx == old(vtx))
      ensures vtx != old(vtx) ==> nBlockWeight < nBlockMaxWeight
      ensures !gaveUp ==> forall x | x in pool.txs - inBlock ::
        LeftOut(pool, x, nBlockWeight, nBlockSigOpsCost, nBlockMaxWeight)
      ensures !gaveUp ==> AllTurnedAway(pool, pool.txs - inBlock, vtx, nBlockMaxWeight)
      ensures gaveUp ==> nBlockWeight > nBlockMaxWeight - 4000 && |failing| > 1000
      ensures failing <= pool.txs - inBlock && AllTurnedAway(pool, failing, vtx, nBlockMaxWeight)
      ensures forall x | x in failing :: TooLarge(pool, x, nBlockWeight, nBlockSigOpsCost, nBlockMaxWeight)
    {
      hide Pool.Dag, Pool.Valid, Pool.Ancestors, Pool.Closure, Valid, WithinLimits, Bounds, BoundOk, DependsOn, LeftOut,
           Elements, Exact, AllTurnedAway, NoRoom, TooLarge, NoDuplicates, Left, SearchOk, Now;
      Counted();
      nPackagesSelected, gaveUp, failing := 0, false, {};
      var failedTx: set<Tx> := {};
      ghost var rejected: set<Tx> := {};
      var m: map<Tx, Modified> := map[];
      BoundsNone(pool);
      EmptyClosed(pool);
      ExactNone(pool, inBlock);
      m, nDescendantsUpdated := UpdatePackagesForAdded(pool, inBlock, m, {}, {});
      assert {} + inBlock == inBlock;
      var mi, nConsecutiveFailed := 0, 0;
      Starts(order, m);
      while mi < |order| || m != map[]
        invariant Valid() && WithinLimits() && old(vtx) <= vtx && 0 <= mi <= |order|
        invariant SearchOk(pool, Now(order, mi, m, failedTx, rejected, failing))
        invariant |failing| == nConsecutiveFailed
        invariant nPackagesSelected <= |vtx| - |old(vtx)| && (nPackagesSelected == 0 ==> vtx == old(vtx))
        invariant vtx != old(vtx) ==> nBlockWeight < nBlockMaxWeight
        decreases pool.txs - inBlock, |order| - mi + |m|
      {
        if mi < |order| && (order[mi] in m || order[mi] in inBlock || order[mi] in failedTx) {
          Skips(order, mi, m, failedTx, rejected, failing);
          mi := mi + 1;
          continue;
        }
        var fits, added, n;
        fits, added, n, mi, m, failedTx, rejected, failing := Round(order, mi, m, failedTx, rejected, failing);
        if !added {
          if !fits {
            nConsecutiveFailed := nConsecutiveFailed + 1;
            if nConsecutiveFailed > MAX_CONSECUTIVE_FAILURES && nBlockWeight > nBlockMaxWeight - 4000 {
              gaveUp := true;
              break;
            }
          }
          continue;
        }
        nConsecutiveFailed := 0;
        nPackagesSelected := nPackagesSelected + 1;
        nDescendantsUpdated := nDescendantsUpdated + n;
      }
      Ends(order, mi, m, failedTx, rejected, failing);
    }

    lemma Starts(order: seq<Tx>, m: map<Tx, Modified>)
      requires pool.Dag() && NoDuplicates(order) && Elements(order) == pool.txs && Elements(vtx) == inBlock
      requires Bounds(pool, m, inBlock) && Exact(pool, m, inBlock, {})
      ensures SearchOk(pool, Now(order, 0, m, {}, {}, {}))
    {
      hide SearchOk;
      SearchStarts(pool, Now(order, 0, m, {}, {}, {}));
    }

    lemma Skips(order: seq<Tx>, mi: nat, m: map<Tx, Modified>, failedTx: set<Tx>, rejected: set<Tx>, failing: set<Tx>)
      requires pool.Dag() && SearchOk(pool, Now(order, mi, m, failedTx, rejected, failing)) && mi < |order|
      requires order[mi] in m || order[mi] in inBlock || order[mi] in failedTx
      ensures SearchOk(pool, Now(order, mi + 1, m, failedTx, rejected, failing))
    {
      hide SearchOk;
      SearchSkips(pool, Now(order, mi, m, failedTx, rejected, failing));
    }

    lemma Ends(order: seq<Tx>, mi: nat, m: map<Tx, Modified>, failedTx: set<Tx>, rejected: set<Tx>, failing: set<Tx>)
      requires pool.Dag() && SearchOk(pool, Now(order, mi, m, failedTx, rejected, failing))
      ensures failing <= pool.txs - inBlock && AllTurnedAway(pool, failing, vtx, nBlockMaxWeight)
      ensures forall x | x in failing :: TooLarge(pool, x, nBlockWeight, nBlockSigOpsCost, nBlockMaxWeight)
      ensures mi == |order| && m == map[] ==> AllTurnedAway(pool, pool.txs - inBlock, vtx, nBlockMaxWeight)
      ensures mi == |order| && m == map[] ==>
        forall x | x in pool.txs - inBlock :: LeftOut(pool, x, nBlockWeight, nBlockSigOpsCost, nBlockMaxWeight)
    {
      hide SearchOk, AllTurnedAway, TooLarge, LeftOut;
      SearchEnds(pool, Now(order, mi, m, failedTx, rejected, failing));
    }

    /** One round of the selection loop: a candidate is taken and its package added or turned away. */
    method Round(order: seq<Tx>, mi0: nat, m0: map<Tx, Modified>, failed0: set<Tx>, ghost rejected0: set<Tx>, ghost failing0: set<Tx>)
      returns (fits: bool, added: bool, n: nat, mi: nat, m: map<Tx, Modified>, failedTx: set<Tx>,
               ghost rejected: set<Tx>, ghost failing: set<Tx>)
      requires Valid() && WithinLimits() && SearchOk(pool, Now(order, mi0, m0, failed0, rejected0, failing0))
      requires mi0 < |order| || (mi0 == |order| && m0 != map[])
      requires mi0 < |order| ==> order[mi0] !in m0 && order[mi0] !in inBlock && order[mi0] !in failed0
      modifies this
      ensures Valid() && WithinLimits() && old(vtx) <= vtx && mi <= |order|
      ensures SearchOk(pool, Now(order, mi, m, failedTx, rejected, failing))
      ensures added ==> |vtx| > |old(vtx)| && failing == {} && pool.txs - inBlock < pool.txs - old(inBlock)
      ensures added ==> nBlockWeight < nBlockMaxWeight
      ensures !added ==> unchanged(this) && |m| - mi < |m0| - mi0
      ensures !added ==> |failing| == |failing0| + (if fits then 0 else 1)
    {
      hide Pool.Dag, Pool.Valid, Pool.Ancestors, Pool.Closure, Valid, WithinLimits, Bounds, BoundOk, DependsOn, LeftOut,
           Elements, Exact, NoRoom, TooLarge, Left, SearchOk, TestPackage;
      Counted();
      ghost var s := Now(order, mi0, m0, failed0, rejected0, failing0);
      SearchFacts(pool, s);
      var iter, totals, fUsingModified := Candidate(order, mi0, m0, rejected0);
      fits, added, m, n := Consider(iter, totals, m0, rejected0);
      mi, failedTx := if fUsingModified then mi0 else mi0 + 1, failed0;
      if added {
        rejected, failing := rejected0, {};
        ClosureParts(pool, iter);
        BlockInPool();
        Counted();
        SearchAdds(pool, s, Now(order, mi, m, failedTx, rejected, failing), iter);
      } else {
        SearchRejects(pool, s, iter, !fits);
        if fUsingModified { m, failedTx := m - {iter}, failedTx + {iter}; }
        rejected, failing := rejected0 + {iter}, if fits then failing0 else failing0 + {iter};
        assert Now(order, mi, m, failedTx, rejected, failing) == Without(s, iter, !fits);
      }
    }

    ghost function Now(order: seq<Tx>, mi: nat, m: map<Tx, Modified>, failedTx: set<Tx>, rejected: set<Tx>, failing: set<Tx>): Search
      reads this
    {
      Search(order, mi, m, failedTx, rejected, failing, vtx, inBlock, nBlockWeight, nBlockSigOpsCost, nBlockMaxWeight)
    }

    lemma BlockInPool()
      requires Valid()
      ensures inBlock <= pool.txs
    {
    }
  }

  // The selection loop

  /** The state of the loop: the index and how far it was read, the adjusted entries, those that failed, all
      that were turned away, those too large since the last success, and the block. */
  datatype Search = Search(order: seq<Tx>, mi: nat, m: map<Tx, Modified>, failedTx: set<Tx>, rejected: set<Tx>, failing: set<Tx>,
                           vtx: seq<Tx>, inBlock: set<Tx>, weight: nat, sigOps: nat, maxWeight: nat)

  ghost predicate SearchOk(p: Pool, s: Search)
    requires p.Dag()
  {
    && s.failedTx <= s.rejected && s.failing <= s.rejected
    && NoDuplicates(s.order) && Elements(s.order) == p.txs && Elements(s.vtx) == s.inBlock
    && Bounds(p, s.m, s.inBlock) && Exact(p, s.m, s.inBlock, s.rejected)
    && Covered(s.order, s.mi, s.inBlock, s.m, s.rejected)
    && AllLeftOut(p, s.rejected, s.weight, s.sigOps, s.maxWeight)
    && AllTurnedAway(p, s.rejected, s.vtx, s.maxWeight)
    && Failing(p, s)
  }

  /** Those too large since the last success are in the pool but not in the block, and are neither adjusted
      nor to come in the index unless they are skipped there. */
  ghost predicate Failing(p: Pool, s: Search) {
    && s.mi <= |s.order| && s.failing <= p.txs - s.inBlock && s.failing !! s.m.Keys
    && (forall x | x in s.failing :: TooLarge(p, x, s.weight, s.sigOps, s.maxWeight))
    && (forall x | x in s.failing :: x in s.failedTx || x in s.order[..s.mi])
  }

  lemma SearchStarts(p: Pool, s: Search)
    requires p.Dag() && s.mi == 0 && s.failedTx == {} && s.rejected == {} && s.failing == {}
    requires NoDuplicates(s.order) && Elements(s.order) == p.txs && Elements(s.vtx) == s.inBlock
    requires Bounds(p, s.m, s.inBlock) && Exact(p, s.m, s.inBlock, {})
    ensures SearchOk(p, s)
  {
    hide Bounds, Exact, LeftOut, TurnedAway, NoDuplicates, Elements;
  }

  lemma SearchFacts(p: Pool, s: Search)
    requires p.Dag() && SearchOk(p, s)
    ensures Bounds(p, s.m, s.inBlock) && Exact(p, s.m, s.inBlock, s.rejected)
    ensures Elements(s.order) == p.txs && s.mi <= |s.order| && Elements(s.vtx) == s.inBlock
  {
    hide Bounds, Exact, AllLeftOut, AllTurnedAway, NoDuplicates, Elements;
  }

  lemma SearchSkips(p: Pool, s: Search)
    requires p.Dag() && SearchOk(p, s) && s.mi < |s.order|
    requires s.order[s.mi] in s.m || s.order[s.mi] in s.inBlock || s.order[s.mi] in s.failedTx
    ensures SearchOk(p, s.(mi := s.mi + 1))
  {
    hide Bounds, Exact, AllLeftOut, AllTurnedAway, NoDuplicates, Elements, TooLarge;
    assert s.order[..s.mi + 1] == s.order[..s.mi] + [s.order[s.mi]];
  }

  ghost function ToDo(s: Search): int { |s.order| - s.mi + |s.m| }

  /** The state after x was turned away. */
  ghost function Without(s: Search, x: Tx, large: bool): Search {
    var u := if x in s.m then s.(m := s.m - {x}, failedTx := s.failedTx + {x}) else s.(mi := s.mi + 1);
    u.(rejected := s.rejected + {x}, failing := if large then s.failing + {x} else s.failing)
  }

  /** Whatever is turned away was not turned away as too large since the last success. */
  lemma SearchRejects(p: Pool, s: Search, x: Tx, large: bool)
    requires p.Dag() && SearchOk(p, s) && x in p.txs && x !in s.inBlock
    requires x !in s.m ==> s.mi < |s.order| && x == s.order[s.mi] && x !in s.failedTx
    requires LeftOut(p, x, s.weight, s.sigOps, s.maxWeight) && (large ==> TooLarge(p, x, s.weight, s.sigOps, s.maxWeight))
    requires x !in s.rejected ==> NoRoom(p, x, s.vtx, s.maxWeight)
    ensures SearchOk(p, Without(s, x, large))
    ensures var u := Without(s, x, large); |u.failing| == |s.failing| + (if large then 1 else 0) && ToDo(u) < ToDo(s)
  {
    hide Bounds, Exact, AllLeftOut, AllTurnedAway, NoDuplicates, Elements, TooLarge, LeftOut, NoRoom, Failing, Covered;
    var u := Without(s, x, large);
    FailingNew(p, s, x);
    WithoutLess(s, x, large);
    FailingToo(p, s, x, large);
    BoundsRestrict(p, s.m, s.inBlock, {x});
    if x in s.m { ExactRestrict(p, s.m, s.inBlock, s.rejected, {x}); } else { ExactMore(p, s.m, s.inBlock, s.rejected, {x}); }
    RejectedCovers(s.order, s.mi, u.mi, s.inBlock, s.m, u.m, s.rejected, x);
    RejectedToo(p, s.rejected, x, s.weight, s.sigOps, s.maxWeight);
    TurnAway(p, s.rejected, x, s.vtx, s.maxWeight);
  }

  lemma WithoutLess(s: Search, x: Tx, large: bool)
    requires x !in s.failing
    ensures var u := Without(s, x, large); |u.failing| == |s.failing| + (if large then 1 else 0) && ToDo(u) < ToDo(s)
  {
    if x in s.m { SmallerMap(s.m, x); }
  }

  lemma FailingNew(p: Pool, s: Search, x: Tx)
    requires Failing(p, s) && NoDuplicates(s.order)
    requires x !in s.m ==> s.mi < |s.order| && x == s.order[s.mi] && x !in s.failedTx
    ensures x !in s.failing
  {
    hide TooLarge;
    if x in s.m {
      assert x in s.m.Keys;
    } else {
      forall i | 0 <= i < s.mi ensures s.order[..s.mi][i] != x {
        assert s.order[i] != s.order[s.mi];
      }
    }
  }

  lemma FailingToo(p: Pool, s: Search, x: Tx, large: bool)
    requires Failing(p, s) && x in p.txs && x !in s.inBlock && x !in s.failing
    requires x !in s.m ==> s.mi < |s.order| && x == s.order[s.mi]
    requires large ==> TooLarge(p, x, s.weight, s.sigOps, s.maxWeight)
    ensures Failing(p, Without(s, x, large))
  {
    hide TooLarge;
    if x !in s.m { assert s.order[..s.mi + 1] == s.order[..s.mi] + [x]; }
  }

  /** The block grew, and nothing has failed since. */
  lemma SearchAdds(p: Pool, s: Search, u: Search, x: Tx)
    requires p.Dag() && SearchOk(p, s) && Advances(s.order, s.mi, u.mi, x)
    requires u == s.(mi := u.mi, m := u.m, failing := {}, vtx := u.vtx, inBlock := u.inBlock, weight := u.weight, sigOps := u.sigOps)
    requires s.vtx <= u.vtx && Elements(u.vtx) == u.inBlock && s.inBlock <= u.inBlock
    requires x in p.txs && x in u.inBlock && x !in s.inBlock
    requires s.m.Keys <= u.m.Keys + u.inBlock && Bounds(p, u.m, u.inBlock) && Exact(p, u.m, u.inBlock, s.rejected)
    requires s.weight <= u.weight && s.sigOps <= u.sigOps
    ensures SearchOk(p, u) && |u.vtx| > |s.vtx| && p.txs - u.inBlock < p.txs - s.inBlock
  {
    hide Bounds, Exact, AllLeftOut, AllTurnedAway, NoDuplicates, Elements, Covered;
    AddedCovers(s.order, s.mi, u.mi, s.inBlock, u.inBlock, s.m, u.m, s.rejected, x);
    LeftOutGrows(p, s.rejected, s.weight, s.sigOps, u.weight, u.sigOps, s.maxWeight);
    TurnedAwayLater(p, s.rejected, s.vtx, u.vtx, s.maxWeight);
    assert s.vtx != u.vtx;
    CoveredRange(s, u);
  }

  lemma CoveredRange(s: Search, u: Search)
    requires Covered(u.order, u.mi, u.inBlock, u.m, u.rejected)
    ensures u.mi <= |u.order|
  {
  }

  lemma SearchEnds(p: Pool, s: Search)
    requires p.Dag() && SearchOk(p, s)
    ensures s.failing <= p.txs - s.inBlock && AllTurnedAway(p, s.failing, s.vtx, s.maxWeight)
    ensures forall x | x in s.failing :: TooLarge(p, x, s.weight, s.sigOps, s.maxWeight)
    ensures s.mi == |s.order| && s.m == map[] ==> AllTurnedAway(p, p.txs - s.inBlock, s.vtx, s.maxWeight)
    ensures s.mi == |s.order| && s.m == map[] ==>
      forall x | x in p.txs - s.inBlock :: LeftOut(p, x, s.weight, s.sigOps, s.maxWeight)
  {
    hide Bounds, Exact, AllLeftOut, AllTurnedAway, NoDuplicates, Elements, Covered, TooLarge, LeftOut;
    TurnedAwayAmong(p, s.rejected, s.failing, s.vtx, s.maxWeight);
    if s.mi == |s.order| && s.m == map[] {
      AllCovered(p, s.order, s.mi, s.inBlock, s.m, s.rejected, s.weight, s.sigOps, s.maxWeight);
      RejectedRest(s.order, s.mi, p.txs, s.inBlock, s.m, s.rejected);
      TurnedAwayAmong(p, s.rejected, p.txs - s.inBlock, s.vtx, s.maxWeight);
    }
  }

  lemma TurnedAwayAmong(p: Pool, xs: set<Tx>, ys: set<Tx>, s: seq<Tx>, maxWeight: nat)
    requires p.Dag() && AllTurnedAway(p, xs, s, maxWeight) && ys <= xs
    ensures AllTurnedAway(p, ys, s, maxWeight)
  {
    hide TurnedAway;
  }

  lemma RejectedRest(order: seq<Tx>, n: nat, txs: set<Tx>, block: set<Tx>, m: map<Tx, Modified>, rejected: set<Tx>)
    requires Covered(order, n, block, m, rejected) && n == |order| && m == map[] && Elements(order) == txs
    ensures txs - block <= rejected
  {
    forall x | x in txs - block ensures x in rejected {
      assert x in Elements(order);
      var i :| 0 <= i < |order| && order[i] == x;
    }
  }

  lemma ExactNone(p: Pool, added: set<Tx>)
    requires p.Dag()
    ensures Exact(p, map[], {}, {} + added)
  {
  }

  lemma ExactMore(p: Pool, m: map<Tx, Modified>, included: set<Tx>, exempt: set<Tx>, more: set<Tx>)
    requires p.Dag() && Exact(p, m, included, exempt)
    ensures Exact(p, m, included, exempt + more)
  {
    hide EntryExact;
  }

  lemma BoundsNone(p: Pool)
    requires p.Dag()
    ensures Bounds(p, map[], {})
  {
  }

  lemma EmptyClosed(p: Pool)
    requires p.Dag()
    ensures Closed(p, {})
  {
  }

  lemma SmallerMap(m: map<Tx, Modified>, x: Tx)
    requires x in m
    ensures |m - {x}| < |m|
  {
    assert (m - {x}).Keys == m.Keys - {x};
  }

  ghost predicate AllLeftOut(p: Pool, s: set<Tx>, weight: nat, sigOps: nat, maxWeight: nat)
    requires p.Dag()
  {
    forall x | x in s :: LeftOut(p, x, weight, sigOps, maxWeight)
  }

  /** The first n entries of the index are in the block, modified or rejected. */
  ghost predicate Covered(order: seq<Tx>, n: nat, block: set<Tx>, m: map<Tx, Modified>, rejected: set<Tx>) {
    n <= |order| && forall i | 0 <= i < n :: order[i] in block || order[i] in m || order[i] in rejected
  }

  /** One round advances the index by at most the transaction it evaluates. */
  ghost predicate Advances(order: seq<Tx>, n: nat, n2: nat, x: Tx) {
    n2 == n || (n < |order| && n2 == n + 1 && order[n] == x)
  }

  lemma RejectedCovers(order: seq<Tx>, n: nat, n2: nat, block: set<Tx>, m0: map<Tx, Modified>, m: map<Tx, Modified>,
                       rejected: set<Tx>, x: Tx)
    requires Covered(order, n, block, m0, rejected) && Advances(order, n, n2, x)
    requires m == m0 || m == m0 - {x}
    ensures Covered(order, n2, block, m, rejected + {x})
  {
  }

  lemma AddedCovers(order: seq<Tx>, n: nat, n2: nat, block0: set<Tx>, block: set<Tx>, m0: map<Tx, Modified>,
                    m: map<Tx, Modified>, rejected: set<Tx>, x: Tx)
    requires Covered(order, n, block0, m0, rejected) && Advances(order, n, n2, x)
    requires block0 <= block && x in block && m0.Keys <= m.Keys + block
    ensures Covered(order, n2, block, m, rejected)
  {
    forall i | 0 <= i < n2 ensures order[i] in block || order[i] in m || order[i] in rejected {
      if order[i] in m0 { assert order[i] in m0.Keys; }
    }
  }

  lemma AllCovered(p: Pool, order: seq<Tx>, n: nat, inBlock: set<Tx>, m: map<Tx, Modified>, rejected: set<Tx>,
                   weight: nat, sigOps: nat, maxWeight: nat)
    requires p.Dag() && Covered(order, n, inBlock, m, rejected) && n == |order| && m == map[]
    requires Elements(order) == p.txs
    requires AllLeftOut(p, rejected, weight, sigOps, maxWeight)
    ensures forall x | x in p.txs - inBlock :: LeftOut(p, x, weight, sigOps, maxWeight)
  {
    forall x | x in p.txs - inBlock ensures LeftOut(p, x, weight, sigOps, maxWeight) {
      assert x in Elements(order);
      var i :| 0 <= i < |order| && order[i] == x;
    }
  }

  lemma RejectedToo(p: Pool, s: set<Tx>, x: Tx, weight: nat, sigOps: nat, maxWeight: nat)
    requires p.Dag() && AllLeftOut(p, s, weight, sigOps, maxWeight) && LeftOut(p, x, weight, sigOps, maxWeight)
    ensures AllLeftOut(p, s + {x}, weight, sigOps, maxWeight)
  {
  }

  /** A fuller block gives no transaction more room. */
  lemma LeftOutGrows(p: Pool, s: set<Tx>, weight0: nat, sigOps0: nat, weight: nat, sigOps: nat, maxWeight: nat)
    requires p.Dag() && weight0 <= weight && sigOps0 <= sigOps && AllLeftOut(p, s, weight0, sigOps0, maxWeight)
    ensures AllLeftOut(p, s, weight, sigOps, maxWeight)
  {
  }

  lemma ClosureParts(p: Pool, x: Tx)
    requires p.Dag()
    ensures p.Closure(x) == p.Ancestors(x) + {x}
  {
  }

  lemma BoundsRestrict(p: Pool, m: map<Tx, Modified>, included: set<Tx>, gone: set<Tx>)
    requires p.Dag() && Bounds(p, m, included)
    ensures Bounds(p, m - gone, included)
  {
  }

  lemma ElementsNone(s: seq<Tx>)
    ensures Elements(s[..0]) == {}
  {
  }

  lemma ElementsNext(s: seq<Tx>, i: nat)
    requires i < |s|
    ensures Elements(s[..i + 1]) == Elements(s[..i]) + {s[i]}
  {
    assert s[..i + 1] == s[..i] + [s[i]];
  }

  /** When its turn comes in the sorted package, a transaction is new and its
      ancestors are in. */
  lemma PackageOrder(p: Pool, before: set<Tx>, package: set<Tx>, x: Tx, s: seq<Tx>, i: nat)
    requires p.Dag() && x in p.txs && package == p.Closure(x) - before && i < |s|
    requires NoDuplicates(s) && Elements(s) == package && SortedByAncestors(p, s)
    ensures s[i] in p.txs && s[i] !in before + Elements(s[..i])
    ensures p.Ancestors(s[i]) <= before + Elements(s[..i])
  {
    var y := s[i];
    assert y in Elements(s);
    if y != x { AncestorFacts(p, x, y); }
    forall a | a in p.Ancestors(y) ensures a in before + Elements(s[..i]) {
      if a !in before {
        assert a in Elements(s);
        SortedOrdered(p, s, i, a);
      }
    }
    forall k | 0 <= k < i ensures s[..i][k] != y { assert s[..i][k] == s[k]; }
  }
}
