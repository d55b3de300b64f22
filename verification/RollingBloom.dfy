/** The rolling Bloom filter: each position holds the generation, 1 to 3, of the last key put
    there, as one bit in each of two words. */
module RollingBloom {

  // Bits of a word

  function Get(w: bv64, k: bv64): bool
    requires k < 64
  {
    (w >> k) & 1 != 0
  }

  // Operations on words, named so that proofs can treat them bit by bit

  function And(x: bv64, y: bv64): bv64 { x & y }
  function Or(x: bv64, y: bv64): bv64 { x | y }
  function Xor(x: bv64, y: bv64): bv64 { x ^ y }
  function Not(x: bv64): bv64 { !x }

  function At(b: bool, k: bv64): bv64
    requires k < 64
  {
    (if b then 1 else 0) << k
  }

  /** The word with bit k replaced by b. */
  function Put(w: bv64, k: bv64, b: bool): bv64
    requires k < 64
  {
    Or(And(w, Not(At(true, k))), At(b, k))
  }

  lemma AndBits(x: bv64, y: bv64, k: bv64)
    requires k < 64
    ensures Get(x & y, k) == (Get(x, k) && Get(y, k))
  {
  }

  lemma GetAnd(x: bv64, y: bv64, k: bv64)
    requires k < 64
    ensures Get(And(x, y), k) == (Get(x, k) && Get(y, k))
  {
    hide Get;
    AndBits(x, y, k);
  }

  lemma OrBits(x: bv64, y: bv64, k: bv64)
    requires k < 64
    ensures Get(x | y, k) == (Get(x, k) || Get(y, k))
  {
  }

  lemma GetOr(x: bv64, y: bv64, k: bv64)
    requires k < 64
    ensures Get(Or(x, y), k) == (Get(x, k) || Get(y, k))
  {
    hide Get;
    OrBits(x, y, k);
  }

  lemma XorBits(x: bv64, y: bv64, k: bv64)
    requires k < 64
    ensures Get(x ^ y, k) == (Get(x, k) != Get(y, k))
  {
  }

  lemma GetXor(x: bv64, y: bv64, k: bv64)
    requires k < 64
    ensures Get(Xor(x, y), k) == (Get(x, k) != Get(y, k))
  {
    hide Get;
    XorBits(x, y, k);
  }

  lemma GetNot(x: bv64, k: bv64)
    requires k < 64
    ensures Get(Not(x), k) == !Get(x, k)
  {
    hide Get;
    NotBits(x, k);
  }

  lemma NotBits(x: bv64, k: bv64)
    requires k < 64
    ensures Get(!x, k) == !Get(x, k)
  {
  }

  lemma GetAt(b: bool, k: bv64, j: bv64)
    requires k < 64 && j < 64
    ensures Get(At(b, k), j) == (b && j == k)
  {
  }

  lemma GetPut(w: bv64, k: bv64, j: bv64, b: bool)
    requires k < 64 && j < 64
    ensures Get(Put(w, k, b), j) == if j == k then b else Get(w, j)
  {
    hide Get, And, Or, Not, At;
    GetAt(true, k, j);
    GetAt(b, k, j);
    GetNot(At(true, k), j);
    GetAnd(w, Not(At(true, k)), j);
    GetOr(And(w, Not(At(true, k))), At(b, k), j);
  }

  /** All ones or all zeroes. */
  function Spread(bit: bool): bv64 { if bit then 0xffff_ffff_ffff_ffff else 0 }

  lemma GetSpread(bit: bool, k: bv64)
    requires k < 64
    ensures Get(Spread(bit), k) == bit
  {
  }

  // Generations

  /** A position: a pair of words and a bit. */
  datatype Place = Place(pair: nat, bit: bv64)

  ghost predicate Fits(p: Place, words: nat) { 2 * p.pair + 1 < words && p.bit < 64 }

  predicate Low(g: nat) { g == 1 || g == 3 }
  predicate High(g: nat) { g == 2 || g == 3 }

  function Number(low: bool, high: bool): nat { (if low then 1 else 0) + (if high then 2 else 0) }

  ghost function Gen(d: seq<bv64>, p: Place): (g: nat)
    requires Fits(p, |d|)
    ensures g <= 3
  {
    Number(Get(d[2 * p.pair], p.bit), Get(d[2 * p.pair + 1], p.bit))
  }

  /** How many generations ago a generation was current. */
  function Age(gen: nat, current: nat): nat
    requires 1 <= gen <= 3 && 1 <= current <= 3
  {
    (current - gen) % 3
  }

  function NextGeneration(g: nat): nat { if g == 3 then 1 else g + 1 }

  ghost predicate YoungAt(d: seq<bv64>, p: Place, current: nat, age: nat)
    requires 1 <= current <= 3
  {
    Fits(p, |d|) && Gen(d, p) != 0 && Age(Gen(d, p), current) <= age
  }

  /** All places of a key hold generations of at most some age. */
  ghost predicate Young(d: seq<bv64>, places: seq<Place>, current: nat, age: nat)
    requires 1 <= current <= 3
  {
    forall n | 0 <= n < |places| :: YoungAt(d, places[n], current, age)
  }

  // Wiping a generation

  function KeepMask(p1: bv64, p2: bv64, g: nat): bv64 {
    Or(Xor(p1, Spread(Low(g))), Xor(p2, Spread(High(g))))
  }

  /** Masked, the bits of the given generation become zero and no others change. */
  lemma MaskBits(p1: bv64, p2: bv64, g: nat, k: bv64)
    requires k < 64 && 1 <= g <= 3
    ensures var a, b := Get(p1, k), Get(p2, k);
      var m := KeepMask(p1, p2, g);
      Number(Get(And(p1, m), k), Get(And(p2, m), k)) == if Number(a, b) == g then 0 else Number(a, b)
  {
    hide Get, Spread, And, Or, Xor;
    var m1, m2 := Spread(Low(g)), Spread(High(g));
    GetSpread(Low(g), k);
    GetSpread(High(g), k);
    GetXor(p1, m1, k);
    GetXor(p2, m2, k);
    GetOr(Xor(p1, m1), Xor(p2, m2), k);
    GetAnd(p1, KeepMask(p1, p2, g), k);
    GetAnd(p2, KeepMask(p1, p2, g), k);
  }

  ghost predicate Wiped(before: seq<bv64>, after: seq<bv64>, g: nat) {
    && |after| == |before|
    && forall p | Fits(p, |before|) :: Gen(after, p) == if Gen(before, p) == g then 0 else Gen(before, p)
  }

  /** Moving to the next generation ages everything by one, and spares what was young enough. */
  lemma WipeSpares(before: seq<bv64>, after: seq<bv64>, places: seq<Place>, g: nat, age: nat)
    requires 1 <= g <= 3 && age <= 1 && Wiped(before, after, NextGeneration(g)) && Young(before, places, g, age)
    ensures Young(after, places, NextGeneration(g), age + 1)
  {
    forall n | 0 <= n < |places| ensures YoungAt(after, places[n], NextGeneration(g), age + 1) {
      assert YoungAt(before, places[n], g, age);
      assert Gen(before, places[n]) <= 3;
    }
  }

  // Marking a place

  ghost predicate Marked(before: seq<bv64>, after: seq<bv64>, q: Place, g: nat) {
    && |after| == |before| && Fits(q, |before|)
    && forall p | Fits(p, |before|) :: Gen(after, p) == if p == q then g else Gen(before, p)
  }

  /** Writing both bits of a place writes its generation and no other. */
  lemma PutMarks(before: seq<bv64>, after: seq<bv64>, q: Place, g: nat)
    requires Fits(q, |before|) && |after| == |before| && 1 <= g <= 3
    requires after == before[2 * q.pair := Put(before[2 * q.pair], q.bit, Low(g))]
                            [2 * q.pair + 1 := Put(before[2 * q.pair + 1], q.bit, High(g))]
    ensures Marked(before, after, q, g)
  {
    hide Get, Put;
    forall p | Fits(p, |before|) ensures Gen(after, p) == if p == q then g else Gen(before, p) {
      GetPut(before[2 * q.pair], q.bit, p.bit, Low(g));
      GetPut(before[2 * q.pair + 1], q.bit, p.bit, High(g));
    }
  }

  /** What was young stays young when a place is marked with the current generation. */
  lemma MarkSpares(before: seq<bv64>, after: seq<bv64>, q: Place, g: nat, places: seq<Place>, age: nat)
    requires 1 <= g <= 3 && Marked(before, after, q, g) && Young(before, places, g, age)
    ensures Young(after, places, g, age)
  {
    forall n | 0 <= n < |places| ensures YoungAt(after, places[n], g, age) {
      assert YoungAt(before, places[n], g, age);
    }
  }

  // What is remembered

  /** The age class of the i-th most recent key: the current generation has count keys so far,
      each one before has e. */
  function Class(i: nat, count: nat, e: nat): nat {
    if i < count then 0 else if i < count + e then 1 else 2
  }

  /** The i-th most recent element. */
  function Recent<T>(history: seq<T>, i: nat): T
    requires i < |history|
  {
    history[|history| - 1 - i]
  }

  /** Of the keys inserted, the last count + 2 e are remembered, each in its class. */
  ghost predicate Remembers(d: seq<bv64>, history: seq<seq<Place>>, g: nat, count: nat, e: nat)
    requires 1 <= g <= 3
  {
    forall i | 0 <= i < |history| && i < count + 2 * e :: Young(d, Recent(history, i), g, Class(i, count, e))
  }

  lemma RememberAt(d: seq<bv64>, history: seq<seq<Place>>, g: nat, count: nat, e: nat, i: nat)
    requires 1 <= g <= 3 && Remembers(d, history, g, count, e) && i < |history| && i < count + 2 * e
    ensures Young(d, Recent(history, i), g, Class(i, count, e))
  {
  }

  /** A full generation passes: its keys and those before move up a class. */
  lemma RotateKeeps(before: seq<bv64>, after: seq<bv64>, history: seq<seq<Place>>, g: nat, e: nat)
    requires 1 <= g <= 3 && Remembers(before, history, g, e, e) && Wiped(before, after, NextGeneration(g))
    ensures Remembers(after, history, NextGeneration(g), 0, e)
  {
    hide Young, Wiped;
    forall i | 0 <= i < |history| && i < 2 * e
      ensures Young(after, Recent(history, i), NextGeneration(g), Class(i, 0, e))
    {
      RememberAt(before, history, g, e, e, i);
      WipeSpares(before, after, Recent(history, i), g, Class(i, e, e));
    }
  }

  lemma MarkKeeps(before: seq<bv64>, after: seq<bv64>, history: seq<seq<Place>>, q: Place, g: nat, count: nat, e: nat)
    requires 1 <= g <= 3 && Remembers(before, history, g, count, e) && Marked(before, after, q, g)
    ensures Remembers(after, history, g, count, e)
  {
    hide Young, Marked;
    forall i | 0 <= i < |history| && i < count + 2 * e
      ensures Young(after, Recent(history, i), g, Class(i, count, e))
    {
      RememberAt(before, history, g, count, e, i);
      MarkSpares(before, after, q, g, Recent(history, i), Class(i, count, e));
    }
  }

  /** A key all of whose places were marked joins the current generation. */
  lemma InsertKeeps(d: seq<bv64>, history: seq<seq<Place>>, places: seq<Place>, g: nat, count: nat, e: nat)
    requires 1 <= g <= 3 && Remembers(d, history, g, count, e) && Young(d, places, g, 0)
    ensures Remembers(d, history + [places], g, count + 1, e)
  {
    hide Young;
    var more := history + [places];
    forall i | 0 <= i < |more| && i < count + 1 + 2 * e
      ensures Young(d, Recent(more, i), g, Class(i, count + 1, e))
    {
      if i > 0 {
        RememberAt(d, history, g, count, e, i - 1);
        assert Recent(more, i) == Recent(history, i - 1);
      }
    }
  }

  // What is forgotten

  /** Place q is one of the places of the i-th most recent key, which is of the given age. */
  ghost predicate SetBy(history: seq<seq<Place>>, i: nat, q: Place, count: nat, e: nat, age: nat) {
    i < |history| && i < count + 2 * e && q in Recent(history, i) && Class(i, count, e) == age
  }

  ghost predicate TracedAt(d: seq<bv64>, history: seq<seq<Place>>, g: nat, count: nat, e: nat, now: seq<Place>, q: Place)
    requires 1 <= g <= 3 && Fits(q, |d|) && Gen(d, q) != 0
  {
    (q in now && Gen(d, q) == g) || exists i :: SetBy(history, i, q, count, e, Age(Gen(d, q), g))
  }

  /** Every mark is of a key of this generation or the two before, or is being made now. */
  ghost predicate Traced(d: seq<bv64>, history: seq<seq<Place>>, g: nat, count: nat, e: nat, now: seq<Place>)
    requires 1 <= g <= 3
  {
    forall q | Fits(q, |d|) && Gen(d, q) != 0 :: TracedAt(d, history, g, count, e, now, q)
  }

  lemma RotateTraced(before: seq<bv64>, after: seq<bv64>, history: seq<seq<Place>>, g: nat, e: nat)
    requires 1 <= g <= 3 && Traced(before, history, g, e, e, []) && Wiped(before, after, NextGeneration(g))
    ensures Traced(after, history, NextGeneration(g), 0, e, [])
  {
    hide Gen, Age;
    forall q | Fits(q, |after|) && Gen(after, q) != 0 ensures TracedAt(after, history, NextGeneration(g), 0, e, [], q) {
      assert TracedAt(before, history, g, e, e, [], q);
      var i: nat :| SetBy(history, i, q, e, e, Age(Gen(before, q), g));
      AgeNext(Gen(before, q), g);
      assert SetBy(history, i, q, 0, e, Age(Gen(after, q), NextGeneration(g)));
    }
  }

  lemma AgeNext(gen: nat, g: nat)
    requires 1 <= gen <= 3 && 1 <= g <= 3 && gen != NextGeneration(g)
    ensures Age(gen, NextGeneration(g)) == Age(gen, g) + 1 <= 2
  {
  }

  lemma MarkTraced(before: seq<bv64>, after: seq<bv64>, history: seq<seq<Place>>, g: nat, count: nat, e: nat, places: seq<Place>, n: nat)
    requires 1 <= g <= 3 && n < |places| && Marked(before, after, places[n], g)
    requires Traced(before, history, g, count, e, places[..n])
    ensures Traced(after, history, g, count, e, places[..n + 1])
  {
    hide Gen;
    assert places[..n + 1] == places[..n] + [places[n]];
    forall q | Fits(q, |after|) && Gen(after, q) != 0 ensures TracedAt(after, history, g, count, e, places[..n + 1], q) {
      if q != places[n] { assert TracedAt(before, history, g, count, e, places[..n], q); }
    }
  }

  lemma InsertTraced(d: seq<bv64>, history: seq<seq<Place>>, places: seq<Place>, g: nat, count: nat, e: nat)
    requires 1 <= g <= 3 && Traced(d, history, g, count, e, places)
    ensures Traced(d, history + [places], g, count + 1, e, [])
  {
    hide Gen;
    var more := history + [places];
    forall q | Fits(q, |d|) && Gen(d, q) != 0 ensures TracedAt(d, more, g, count + 1, e, [], q) {
      assert TracedAt(d, history, g, count, e, places, q);
      if q in places && Gen(d, q) == g {
        assert Recent(more, 0) == places && Age(g, g) == 0;
        assert SetBy(more, 0, q, count + 1, e, Age(Gen(d, q), g));
      } else {
        var i: nat :| SetBy(history, i, q, count, e, Age(Gen(d, q), g));
        assert Recent(more, i + 1) == Recent(history, i);
        assert SetBy(more, i + 1, q, count + 1, e, Age(Gen(d, q), g));
      }
    }
  }

  /** A place is marked exactly if it is one of the places of a key that is remembered. */
  ghost predicate Owned(history: seq<seq<Place>>, q: Place, count: nat, e: nat) {
    exists i :: OwnedBy(history, i, q, count, e)
  }

  ghost predicate OwnedBy(history: seq<seq<Place>>, i: nat, q: Place, count: nat, e: nat) {
    i < |history| && i < count + 2 * e && q in Recent(history, i)
  }

  lemma MarkedExactly(d: seq<bv64>, history: seq<seq<Place>>, g: nat, count: nat, e: nat, q: Place)
    requires 1 <= g <= 3 && Remembers(d, history, g, count, e) && Traced(d, history, g, count, e, []) && Fits(q, |d|)
    ensures Gen(d, q) != 0 <==> Owned(history, q, count, e)
  {
    hide Gen;
    if Gen(d, q) != 0 {
      assert TracedAt(d, history, g, count, e, [], q);
      var i: nat :| SetBy(history, i, q, count, e, Age(Gen(d, q), g));
      assert OwnedBy(history, i, q, count, e);
    }
    if Owned(history, q, count, e) {
      var i: nat :| OwnedBy(history, i, q, count, e);
      RememberAt(d, history, g, count, e, i);
      var n :| 0 <= n < |Recent(history, i)| && Recent(history, i)[n] == q;
      assert YoungAt(d, Recent(history, i)[n], g, Class(i, count, e));
    }
  }

  // The filter

  type Key = seq<bv8>

  /** How keys are hashed: the hash functions, how many, the tweak and the number of words. */
  datatype Hashing = Hashing(hash: (nat, nat, Key) -> bv32, count: nat, tweak: nat, words: nat)

  predicate Usable(h: Hashing) { h.words >= 2 && h.words % 2 == 0 }

  /** The place hash n assigns to a key: six bits of the hash select the bit, the others the words. */
  function PlaceOf(h: Hashing, n: nat, key: Key): (p: Place)
    requires Usable(h)
    ensures 2 * p.pair + 1 < h.words && p.bit < 64
  {
    var x := h.hash(n, h.tweak, key);
    Place((((x >> 6) as nat) % h.words) / 2, (x & 0x3f) as bv64)
  }

  ghost function PlacesOf(h: Hashing, key: Key): (r: seq<Place>)
    requires Usable(h)
    ensures |r| == h.count && forall n | 0 <= n < h.count :: r[n] == PlaceOf(h, n, key)
  {
    seq(h.count, n requires 0 <= n < h.count => PlaceOf(h, n, key))
  }

  ghost function History(h: Hashing, keys: seq<Key>): (r: seq<seq<Place>>)
    requires Usable(h)
    ensures |r| == |keys| && forall i | 0 <= i < |keys| :: r[i] == PlacesOf(h, keys[i])
  {
    seq(|keys|, i requires 0 <= i < |keys| => PlacesOf(h, keys[i]))
  }

  lemma HistoryAppend(h: Hashing, keys: seq<Key>, key: Key)
    requires Usable(h)
    ensures History(h, keys + [key]) == History(h, keys) + [PlacesOf(h, key)]
  {
  }

  class RollingBloomFilter {
    const data: array<bv64>
    const nHashFuncs: nat
    const nEntriesPerGeneration: nat
    const hash: (nat, nat, Key) -> bv32
    var nTweak: nat
    var nEntriesThisGeneration: nat
    var nGeneration: nat
    ghost var inserted: seq<Key>

    function Scheme(): Hashing
      reads this
    {
      Hashing(hash, nHashFuncs, nTweak, data.Length)
    }

    /** Of all keys inserted since the last reset, the most recent are remembered, those of this
        generation and of the two before, and nothing is left of the others. */
    ghost predicate Valid()
      reads this, data
    {
      && Usable(Scheme()) && 1 <= nGeneration <= 3
      && (nEntriesPerGeneration > 0 ==> nEntriesThisGeneration <= nEntriesPerGeneration)
      && Remembers(data[..], History(Scheme(), inserted), nGeneration, nEntriesThisGeneration, nEntriesPerGeneration)
      && Traced(data[..], History(Scheme(), inserted), nGeneration, nEntriesThisGeneration, nEntriesPerGeneration, [])
    }

    constructor (nElements: nat, nHashFuncs: nat, pairs: nat, hash: (nat, nat, Key) -> bv32, tweak: nat)
      requires pairs >= 1
      ensures Valid() && fresh(data) && inserted == []
      ensures nEntriesPerGeneration == (nElements + 1) / 2 && nElements <= 2 * nEntriesPerGeneration <= nElements + 1
      ensures forall i | 0 <= i < data.Length :: data[i] == 0
    {
      this.hash, this.nHashFuncs, nEntriesPerGeneration := hash, nHashFuncs, (nElements + 1) / 2;
      nTweak, nEntriesThisGeneration, nGeneration, inserted := tweak, 0, 1, [];
      data := new bv64[2 * pairs](_ => 0);
    }

    /** Forgets everything; the tweak is drawn anew. */
    method Reset(tweak: nat)
      requires Valid()
      modifies this`nTweak, this`nEntriesThisGeneration, this`nGeneration, this`inserted, data
      ensures Valid() && inserted == [] && nTweak == tweak && nEntriesThisGeneration == 0
      ensures forall i | 0 <= i < data.Length :: data[i] == 0
    {
      nTweak, nEntriesThisGeneration, nGeneration, inserted := tweak, 0, 1, [];
      var i := 0;
      while i < data.Length
        invariant i <= data.Length && forall j | 0 <= j < i :: data[j] == 0
        modifies data
      {
        data[i] := 0;
        i := i + 1;
      }
    }

    /** Clears all places holding a generation. */
    method Wipe(g: nat)
      requires data.Length % 2 == 0 && 1 <= g <= 3
      modifies data
      ensures Wiped(old(data[..]), data[..], g)
    {
      hide Get, And, Gen, KeepMask;
      ghost var before := data[..];
      var p := 0;
      while p < data.Length
        invariant 0 <= p <= data.Length && p % 2 == 0
        invariant forall q | Fits(q, |before|) && 2 * q.pair < p ::
          Gen(data[..], q) == if Gen(before, q) == g then 0 else Gen(before, q)
        invariant forall i | p <= i < data.Length :: data[i] == before[i]
      {
        ghost var now := data[..];
        var p1, p2 := data[p], data[p + 1];
        var mask := KeepMask(p1, p2, g);
        data[p] := And(p1, mask);
        data[p + 1] := And(p2, mask);
        WipePair(before, now, data[..], p, g);
        p := p + 2;
      }
    }

    /** Marks a place with the current generation. */
    method Mark(q: Place)
      requires Fits(q, data.Length) && 1 <= nGeneration <= 3
      modifies data
      ensures Marked(old(data[..]), data[..], q, nGeneration)
    {
      hide Put, Gen;
      ghost var before := data[..];
      data[2 * q.pair] := Put(data[2 * q.pair], q.bit, Low(nGeneration));
      data[2 * q.pair + 1] := Put(data[2 * q.pair + 1], q.bit, High(nGeneration));
      assert data[..] == before[2 * q.pair := data[2 * q.pair]][2 * q.pair + 1 := data[2 * q.pair + 1]];
      PutMarks(before, data[..], q, nGeneration);
    }

    method Insert(key: Key)
      requires Valid()
      modifies this`nEntriesThisGeneration, this`nGeneration, this`inserted, data
      ensures Valid() && inserted == old(inserted) + [key]
    {
      hide Remembers, Wiped, Marked, Young, PlaceOf, Traced;
      ghost var scheme := Scheme();
      ghost var history := History(scheme, inserted);
      if nEntriesThisGeneration == nEntriesPerGeneration {
        ghost var g := nGeneration;
        nEntriesThisGeneration := 0;
        nGeneration := nGeneration + 1;
        if nGeneration == 4 { nGeneration := 1; }
        Wipe(nGeneration);
        RotateKeeps(old(data[..]), data[..], history, g, nEntriesPerGeneration);
        RotateTraced(old(data[..]), data[..], history, g, nEntriesPerGeneration);
      }
      ghost var count := nEntriesThisGeneration;
      nEntriesThisGeneration := nEntriesThisGeneration + 1;
      ghost var places := PlacesOf(scheme, key);
      YoungNone(data[..], nGeneration);
      var n := 0;
      while n < nHashFuncs
        invariant 0 <= n <= nHashFuncs && Scheme() == scheme && 1 <= nGeneration <= 3
        invariant Remembers(data[..], history, nGeneration, count, nEntriesPerGeneration)
        invariant Young(data[..], places[..n], nGeneration, 0)
        invariant Traced(data[..], history, nGeneration, count, nEntriesPerGeneration, places[..n])
        modifies data
      {
        ghost var before := data[..];
        Mark(PlaceOf(Scheme(), n, key));
        MarkKeeps(before, data[..], history, places[n], nGeneration, count, nEntriesPerGeneration);
        MarkSpares(before, data[..], places[n], nGeneration, places[..n], 0);
        YoungMore(before, data[..], places, n, nGeneration);
        MarkTraced(before, data[..], history, nGeneration, count, nEntriesPerGeneration, places, n);
        n := n + 1;
      }
      assert places[..n] == places;
      InsertKeeps(data[..], history, places, nGeneration, count, nEntriesPerGeneration);
      InsertTraced(data[..], history, places, nGeneration, count, nEntriesPerGeneration);
      HistoryAppend(scheme, inserted, key);
      inserted := inserted + [key];
    }

    /** Tells whether every place of a key holds some generation: exactly if each is also a place of some
        remembered key, and so for every remembered key. */
    method Contains(key: Key) returns (found: bool)
      requires Valid()
      ensures found == forall n | 0 <= n < nHashFuncs :: Gen(data[..], PlaceOf(Scheme(), n, key)) != 0
      ensures forall i: nat | i < |inserted| && i < nEntriesThisGeneration + 2 * nEntriesPerGeneration
        && Recent(inserted, i) == key :: found
      ensures found <==> forall n | 0 <= n < nHashFuncs ::
        Owned(History(Scheme(), inserted), PlaceOf(Scheme(), n, key), nEntriesThisGeneration, nEntriesPerGeneration)
    {
      hide PlaceOf, Get, Or, Remembers, Traced, Owned;
      forall n | 0 <= n < nHashFuncs
        ensures Gen(data[..], PlaceOf(Scheme(), n, key)) != 0 <==>
          Owned(History(Scheme(), inserted), PlaceOf(Scheme(), n, key), nEntriesThisGeneration, nEntriesPerGeneration)
      {
        MarkedExactly(data[..], History(Scheme(), inserted), nGeneration, nEntriesThisGeneration, nEntriesPerGeneration,
                      PlaceOf(Scheme(), n, key));
      }
      var n := 0;
      ghost var d := data[..];
      while n < nHashFuncs
        invariant 0 <= n <= nHashFuncs
        invariant forall k | 0 <= k < n :: Gen(d, PlaceOf(Scheme(), k, key)) != 0
      {
        var p := PlaceOf(Scheme(), n, key);
        GetOr(data[2 * p.pair], data[2 * p.pair + 1], p.bit);
        if !Get(Or(data[2 * p.pair], data[2 * p.pair + 1]), p.bit) {
          NotRemembered(d, Scheme(), inserted, nGeneration, nEntriesThisGeneration, nEntriesPerGeneration, key, n);
          return false;
        }
        n := n + 1;
      }
      return true;
    }
  }

  lemma YoungNone(d: seq<bv64>, g: nat)
    requires 1 <= g <= 3
    ensures forall places: seq<Place> :: Young(d, places[..0], g, 0)
  {
  }

  /** The place just marked is of the current generation. */
  lemma YoungMore(before: seq<bv64>, after: seq<bv64>, places: seq<Place>, n: nat, g: nat)
    requires n < |places| && 1 <= g <= 3 && Marked(before, after, places[n], g) && Young(after, places[..n], g, 0)
    ensures Young(after, places[..n + 1], g, 0)
  {
    var more := places[..n + 1];
    forall i | 0 <= i < |more| ensures YoungAt(after, more[i], g, 0) {
      if i < n { assert YoungAt(after, places[..n][i], g, 0); }
    }
  }

  lemma WipePair(before: seq<bv64>, now: seq<bv64>, after: seq<bv64>, p: nat, g: nat)
    requires |before| == |now| == |after| && p % 2 == 0 && p + 1 < |now| && 1 <= g <= 3
    requires now[p] == before[p] && now[p + 1] == before[p + 1]
    requires var m := KeepMask(now[p], now[p + 1], g);
      after == now[p := And(now[p], m)][p + 1 := And(now[p + 1], m)]
    requires forall q | Fits(q, |before|) && 2 * q.pair < p ::
      Gen(now, q) == if Gen(before, q) == g then 0 else Gen(before, q)
    ensures forall q | Fits(q, |before|) && 2 * q.pair < p + 2 ::
      Gen(after, q) == if Gen(before, q) == g then 0 else Gen(before, q)
  {
    hide Get, And, KeepMask;
    forall q | Fits(q, |before|) && 2 * q.pair < p + 2
      ensures Gen(after, q) == if Gen(before, q) == g then 0 else Gen(before, q)
    {
      if 2 * q.pair == p {
        MaskBits(now[p], now[p + 1], g, q.bit);
      } else {
        assert Gen(after, q) == Gen(now, q);
      }
    }
  }

  /** A key with an empty place is none of those remembered. */
  lemma NotRemembered(d: seq<bv64>, h: Hashing, keys: seq<Key>, g: nat, count: nat, e: nat, key: Key, n: nat)
    requires Usable(h) && |d| == h.words && 1 <= g <= 3 && Remembers(d, History(h, keys), g, count, e)
    requires n < h.count && Gen(d, PlaceOf(h, n, key)) == 0
    ensures forall i: nat | i < |keys| && i < count + 2 * e :: Recent(keys, i) != key
  {
    hide PlaceOf, Gen;
    forall i: nat | i < |keys| && i < count + 2 * e ensures Recent(keys, i) != key {
      RememberAt(d, History(h, keys), g, count, e, i);
      var places := Recent(History(h, keys), i);
      assert YoungAt(d, places[n], g, Class(i, count, e));
    }
  }
}
