/** The memory pool as the block assembler sees it: a directed acyclic graph of
    transactions with exact ancestor sets and totals. */
module Mempool {

  type Tx = nat

  /** rank witnesses that spending has no cycles. The totals are the cached values
      of the pool's entries. isFinal says that a transaction passes all the tests a block
      makes of it alone: it is final at the block's height and lock time, carries no
      witness if the block takes none, and is not dated after the block. */
  datatype Pool = Pool(txs: set<Tx>, parents: Tx -> set<Tx>, rank: Tx -> nat,
                       size: Tx -> nat, weight: Tx -> nat, sigOps: Tx -> nat, isFinal: Tx -> bool,
                       sizeWithAncestors: Tx -> nat, sigOpsWithAncestors: Tx -> nat)
  {
    ghost predicate Dag() {
      && (forall x, q | q in parents(x) :: rank(q) < rank(x))
      && (forall x, q | x in txs && q in parents(x) :: q in txs)
    }

    /** The in-pool ancestors of x, x excluded. */
    function Ancestors(x: Tx): set<Tx>
      requires Dag()
      decreases rank(x), 0
    {
      set q, a | q in parents(x) && a in Closure(q) :: a
    }

    function Closure(x: Tx): set<Tx>
      requires Dag()
      decreases rank(x), 1
    {
      Ancestors(x) + {x}
    }

    /** x and everything that depends on it. */
    function Descendants(x: Tx): set<Tx>
      requires Dag()
    {
      set d | d in txs && (d == x || x in Ancestors(d))
    }

    ghost predicate Valid() {
      && Dag()
      && (forall x | x in txs :: sizeWithAncestors(x) == Sum(size, Closure(x)))
      && (forall x | x in txs :: sigOpsWithAncestors(x) == Sum(sigOps, Closure(x)))
      && (forall x | x in txs :: weight(x) <= 4 * size(x))
    }
  }

  // Sums over sets

  ghost function Pick(s: set<Tx>): (x: Tx)
    requires s != {}
    ensures x in s
  {
    PickExists(s);
    var x :| x in s;
    x
  }

  lemma PickExists<T>(s: set<T>)
    requires s != {}
    ensures exists x :: x in s
  {
  }

  ghost function Sum(f: Tx -> nat, s: set<Tx>): nat {
    if s == {} then 0 else var x := Pick(s); f(x) + Sum(f, s - {x})
  }

  lemma {:induction false} SumRemove(f: Tx -> nat, s: set<Tx>, x: Tx)
    requires x in s
    ensures Sum(f, s) == f(x) + Sum(f, s - {x})
    decreases s
  {
    var y := Pick(s);
    if y != x {
      SumRemove(f, s - {y}, x);
      assert s - {y} - {x} == s - {x} - {y};
      SumRemove(f, s - {x}, y);
    }
  }

  lemma {:induction false} SumSplit(f: Tx -> nat, a: set<Tx>, b: set<Tx>)
    requires a !! b
    ensures Sum(f, a + b) == Sum(f, a) + Sum(f, b)
    decreases a
  {
    if a == {} {
      assert a + b == b;
    } else {
      var x := Pick(a);
      SumSplit(f, a - {x}, b);
      assert a + b - {x} == (a - {x}) + b;
      SumRemove(f, a + b, x);
      SumRemove(f, a, x);
    }
  }

  lemma SumSubset(f: Tx -> nat, a: set<Tx>, b: set<Tx>)
    requires a <= b
    ensures Sum(f, a) <= Sum(f, b)
  {
    SumSplit(f, a, b - a);
    assert a + (b - a) == b;
  }

  lemma {:induction false} SumBound(f: Tx -> nat, g: Tx -> nat, s: set<Tx>)
    requires forall x | x in s :: f(x) <= 4 * g(x)
    ensures Sum(f, s) <= 4 * Sum(g, s)
    decreases s
  {
    if s != {} {
      var x := Pick(s);
      SumBound(f, g, s - {x});
      SumRemove(f, s, x);
      SumRemove(g, s, x);
    }
  }

  // Ancestors

  lemma {:induction false} AncestorFacts(p: Pool, x: Tx, a: Tx)
    requires p.Dag() && a in p.Ancestors(x)
    ensures p.rank(a) < p.rank(x) && p.Ancestors(a) <= p.Ancestors(x)
    ensures x in p.txs ==> a in p.txs
    decreases p.rank(x)
  {
    var q :| q in p.parents(x) && a in p.Closure(q);
    if a != q {
      AncestorFacts(p, q, a);
      AncestorFacts2(p, x, q);
    } else {
      AncestorFacts2(p, x, q);
    }
  }

  lemma AncestorFacts2(p: Pool, x: Tx, q: Tx)
    requires p.Dag() && q in p.parents(x)
    ensures p.Ancestors(q) <= p.Ancestors(x) && q in p.Ancestors(x)
  {
    forall a | a in p.Closure(q) ensures a in p.Ancestors(x) {
    }
    assert q in p.Closure(q);
  }

  /** The number of ancestors grows strictly along dependencies. */
  lemma AncestorCount(p: Pool, x: Tx, a: Tx)
    requires p.Dag() && a in p.Ancestors(x)
    ensures |p.Ancestors(a)| < |p.Ancestors(x)|
  {
    AncestorFacts(p, x, a);
    if a in p.Ancestors(a) { AncestorFacts(p, a, a); assert false; }
    ProperSubset(p.Ancestors(a), p.Ancestors(x), a);
  }

  lemma {:induction false} ProperSubset(s: set<Tx>, t: set<Tx>, x: Tx)
    requires s <= t && x in t && x !in s
    ensures |s| < |t|
  {
    assert |t| == |s| + |t - s| by {
      assert s + (t - s) == t;
    }
    assert x in t - s;
  }

  /** A set with each of its members' ancestors. */
  ghost predicate Closed(p: Pool, s: set<Tx>)
    requires p.Dag()
  {
    forall x | x in s :: p.Ancestors(x) <= s
  }
}
