/** Any stack of coin caches, under any sequence of operations, is a stack of plain
    maps from outputs to coins, with a block hash for each. */
module CoinsRuns {
  import opened CoinsStack

  /** What each layer shows, from the database up. */
  function Layers(s: Stack): (v: seq<Coins>)
    ensures |v| > 0 && v[|v| - 1] == View(s)
  {
    match s
    case Database(coins, _) => [coins]
    case Cache(_, _, base) => Layers(base) + [View(s)]
  }

  /** The block hash each layer holds, null or not, from the database up. */
  function Hashes(s: Stack): (h: seq<nat>)
    ensures |h| == |Layers(s)| && h[|h| - 1] == s.hashBlock
  {
    match s
    case Database(_, hash) => [hash]
    case Cache(_, hash, base) => Hashes(base) + [hash]
  }

  /** Operations that may be applied to a layer with other caches above it. Ask is
      GetBestBlock, which remembers what it is told. */
  datatype LayerOp = Look(o: OutPoint) | Forget(o: OutPoint) | Ask | WriteBack

  /** Mark is SetBestBlock. */
  datatype Op =
    | Inside(above: nat, op: LayerOp)
    | Add(o: OutPoint, coin: Coin, overwrite: bool)
    | Spend(o: OutPoint)
    | Mark(hash: nat)
    | Push
    | Discard

  // On plain maps

  /** There is a cache to operate on. */
  predicate Fits(layers: nat, op: Op) {
    match op
    case Inside(above, _) => above + 2 <= layers
    case Push => layers >= 1
    case _ => layers >= 2
  }

  /** Adds honour possible_overwrite. */
  predicate Allowed(v: seq<Coins>, op: Op) {
    && Fits(|v|, op)
    && (op.Add? ==> !op.coin.IsSpent() && (op.overwrite || op.o !in v[|v| - 1]))
  }

  function PlainStep(v: seq<Coins>, op: Op): (r: seq<Coins>)
    requires Allowed(v, op)
  {
    var top := |v| - 1;
    match op
    case Inside(above, WriteBack) => v[top - above - 1 := v[top - above]]
    case Inside(_, _) => v
    case Add(o, coin, _) => if coin.IsUnspendable() then v else v[top := v[top][o := coin]]
    case Spend(o) => v[top := v[top] - {o}]
    case Mark(_) => v
    case Push => v + [v[top]]
    case Discard => v[..top]
  }

  // On block hashes

  /** What layer k reports as its best block. */
  function Best(h: seq<nat>, k: nat): nat
    requires k < |h|
  {
    if k == 0 || h[k] != 0 then h[k] else Best(h, k - 1)
  }

  /** After layer k was asked: every null hash the question passed is filled in. */
  function Filled(h: seq<nat>, k: nat): (r: seq<nat>)
    requires k < |h|
    ensures |r| == |h|
  {
    if k == 0 || h[k] != 0 then h else Filled(h, k - 1)[k := Best(h, k)]
  }

  function HashStep(h: seq<nat>, op: Op): (r: seq<nat>)
    requires Fits(|h|, op)
  {
    var top := |h| - 1;
    match op
    case Inside(above, WriteBack) => h[top - above - 1 := h[top - above]]
    case Inside(above, Ask) => Filled(h, top - above)
    case Mark(hash) => h[top := hash]
    case Push => h + [0]
    case Discard => h[..top]
    case _ => h
  }

  /** The lowest cache is written back without a hash, which the database asserts against. */
  predicate NullWrite(h: seq<nat>, op: Op)
    requires Fits(|h|, op)
  {
    op.Inside? && op.op.WriteBack? && op.above + 2 == |h| && h[1] == 0
  }

  // On the stack

  function Asked(s: Stack): Stack {
    if s.Cache? && s.hashBlock == 0 then s.(base := Asked(s.base), hashBlock := BestBlock(s.base)) else s
  }

  function BestBlock(s: Stack): nat {
    if s.Cache? && s.hashBlock == 0 then BestBlock(s.base) else s.hashBlock
  }

  ghost function ApplyLayer(s: Stack, op: LayerOp): Outcome
    requires s.Cache?
  {
    match op
    case Look(o) => Done(Fetch(s, o))
    case Forget(o) => Done(Uncache(s, o))
    case Ask => Done(Asked(s))
    case WriteBack =>
      if s.base.Database? && s.hashBlock == 0 then Aborted
      else if s.base.Cache? && MergeThrows(s.base.entries, s.entries) then Thrown
      else Done(Flush(s))
  }

  ghost function Inner(s: Stack, above: nat, op: LayerOp): Outcome
    requires above + 2 <= |Layers(s)|
  {
    if above == 0 then ApplyLayer(s, op)
    else
      var r := Inner(s.base, above - 1, op);
      if r.Done? then Done(s.(base := r.s)) else r
  }

  ghost function Step(s: Stack, op: Op): Outcome
    requires Allowed(Layers(s), op)
  {
    match op
    case Inside(above, lop) => Inner(s, above, lop)
    case Add(o, coin, overwrite) => AddCoin(s, o, coin, overwrite)
    case Spend(o) => Done(SpendCoin(s, o).0)
    case Mark(hash) => Done(Cache(s.entries, hash, s.base))
    case Push => Done(Cache(map[], 0, s))
    case Discard => Done(s.base)
  }

  // The refinement, operation by operation

  /** What a step must do to refine the steps on maps and on hashes. */
  ghost predicate Refines(s: Stack, op: Op, r: Outcome)
    requires Allowed(Layers(s), op)
  {
    && !r.Thrown?
    && (r.Aborted? <==> NullWrite(Hashes(s), op))
    && (r.Done? ==> Coherent(r.s) && Layers(r.s) == PlainStep(Layers(s), op) && Hashes(r.s) == HashStep(Hashes(s), op))
  }

  lemma {:induction false} LookLayers(s: Stack, o: OutPoint)
    requires Coherent(s)
    ensures Layers(GetCoin(s, o).0) == Layers(s) && Hashes(GetCoin(s, o).0) == Hashes(s)
    ensures s.Cache? ==> Layers(Fetch(s, o)) == Layers(s) && Hashes(Fetch(s, o)) == Hashes(s)
  {
    hide View;
    if s.Cache? {
      LookLayers(s.base, o);
      FetchKeeps(s, o);
    }
  }

  lemma {:induction false} BestIsBestBlock(s: Stack)
    ensures Best(Hashes(s), |Hashes(s)| - 1) == BestBlock(s)
  {
    if s.Cache? && s.hashBlock == 0 {
      BestIsBestBlock(s.base);
      BestPrefix(Hashes(s), Hashes(s.base), |Hashes(s.base)| - 1);
    }
  }

  /** A layer's report depends on the layers up to it. */
  lemma {:induction false} BestPrefix(h: seq<nat>, g: seq<nat>, k: nat)
    requires k < |h| && k < |g| && h[..k + 1] == g[..k + 1]
    ensures Best(h, k) == Best(g, k)
    ensures Filled(h, k)[..k + 1] == Filled(g, k)[..k + 1]
    ensures Filled(h, k)[k + 1..] == h[k + 1..]
  {
    assert h[k] == h[..k + 1][k] == g[k];
    if k > 0 && h[k] == 0 {
      assert h[..k] == h[..k + 1][..k] && g[..k] == g[..k + 1][..k];
      BestPrefix(h, g, k - 1);
      assert Filled(h, k)[..k] == Filled(h, k - 1)[..k] && Filled(g, k)[..k] == Filled(g, k - 1)[..k];
      assert Filled(h, k)[k + 1..] == Filled(h, k - 1)[k..][1..] == h[k..][1..];
    }
  }

  lemma {:induction false} AskedKeeps(s: Stack)
    requires Coherent(s)
    ensures Coherent(Asked(s)) && View(Asked(s)) == View(s) && Layers(Asked(s)) == Layers(s)
    ensures Hashes(Asked(s)) == Filled(Hashes(s), |Hashes(s)| - 1)
  {
    hide Over, EntriesOk;
    if s.Cache? && s.hashBlock == 0 {
      AskedKeeps(s.base);
      BestIsBestBlock(s);
      var h, g := Hashes(s), Hashes(s.base);
      BestPrefix(h, g, |g| - 1);
      assert h[..|g|] == g;
      assert Filled(h, |g| - 1)[..|g|] == Filled(g, |g| - 1)[..|g|];
      assert Filled(h, |g|) == Filled(h, |g| - 1)[..|g|] + [Best(h, |g|)];
    }
  }

  lemma ApplyLayerRefines(s: Stack, op: LayerOp)
    requires Coherent(s) && s.Cache?
    ensures |Layers(s)| >= 2 && Refines(s, Inside(0, op), ApplyLayer(s, op))
    ensures ApplyLayer(s, op).Done? ==> View(ApplyLayer(s, op).s) == View(s)
  {
    hide View, Coherent, Refines, Hashes, Fetch, Uncache, Flush, MergeThrows, Asked;
    match op
    case Look(o) => FetchKeeps(s, o); LookLayers(s, o); QuietRefines(s, op, Fetch(s, o));
    case Forget(o) => UncacheKeeps(s, o); UncacheLayers(s, o); QuietRefines(s, op, Uncache(s, o));
    case Ask => AskedKeeps(s); AskRefines(s);
    case WriteBack => WriteBackRefines(s);
  }

  lemma QuietRefines(s: Stack, op: LayerOp, u: Stack)
    requires s.Cache? && (op.Look? || op.Forget?)
    requires Coherent(u) && Layers(u) == Layers(s) && Hashes(u) == Hashes(s)
    ensures |Layers(s)| >= 2 && Refines(s, Inside(0, op), Done(u))
  {
    hide View, Coherent;
  }

  lemma AskRefines(s: Stack)
    requires s.Cache? && Coherent(Asked(s)) && Layers(Asked(s)) == Layers(s)
    requires Hashes(Asked(s)) == Filled(Hashes(s), |Hashes(s)| - 1)
    ensures |Layers(s)| >= 2 && Refines(s, Inside(0, Ask), Done(Asked(s)))
  {
    hide View, Coherent, Asked, Filled;
  }

  lemma UncacheLayers(s: Stack, o: OutPoint)
    requires s.Cache? && View(Uncache(s, o)) == View(s)
    ensures Layers(Uncache(s, o)) == Layers(s) && Hashes(Uncache(s, o)) == Hashes(s)
  {
    hide View;
  }

  lemma WriteBackRefines(s: Stack)
    requires Coherent(s) && s.Cache?
    ensures |Layers(s)| >= 2 && Refines(s, Inside(0, WriteBack), ApplyLayer(s, WriteBack))
    ensures View(Flush(s)) == View(s)
  {
    hide View, Coherent, Flush, MergeThrows;
    FlushKeeps(s);
    BatchWriteLayers(s);
    BatchWriteHashes(s);
    assert NullWrite(Hashes(s), Inside(0, WriteBack)) <==> s.base.Database? && s.hashBlock == 0;
  }

  lemma BatchWriteLayers(s: Stack)
    requires s.Cache? && View(Flush(s).base) == View(s) && View(Flush(s)) == View(s)
    ensures |Layers(s)| >= 2 && Layers(Flush(s)) == Layers(s)[|Layers(s)| - 2 := View(s)]
  {
    hide View, Merge, Written, Hashes;
    assert Layers(Flush(s)) == Layers(Flush(s).base) + [View(s)];
    if s.base.Cache? {
      assert Layers(Flush(s).base) == Layers(s.base.base) + [View(s)];
    }
  }

  lemma BatchWriteHashes(s: Stack)
    requires s.Cache?
    ensures |Hashes(s)| >= 2 && Hashes(Flush(s)) == Hashes(s)[|Hashes(s)| - 2 := s.hashBlock]
  {
    hide Layers, BatchWrite;
    HashWritten(s.base, s.entries, s.hashBlock);
    assert Hashes(Flush(s)) == Hashes(BatchWrite(s.base, s.entries, s.hashBlock)) + [s.hashBlock];
  }

  lemma HashWritten(s: Stack, child: Entries, hash: nat)
    ensures Hashes(BatchWrite(s, child, hash)) == Hashes(s)[|Hashes(s)| - 1 := hash]
  {
    hide Layers, Merge, Written;
  }

  lemma {:induction false} InnerRefines(s: Stack, above: nat, op: LayerOp)
    requires Coherent(s) && above + 2 <= |Layers(s)|
    ensures Refines(s, Inside(above, op), Inner(s, above, op))
    ensures Inner(s, above, op).Done? ==> View(Inner(s, above, op).s) == View(s)
  {
    hide Over, EntriesOk, ApplyLayer, Refines, Hashes;
    if above == 0 {
      ApplyLayerRefines(s, op);
    } else {
      InnerRefines(s.base, above - 1, op);
      var r := Inner(s.base, above - 1, op);
      if r.Done? { LiftDone(s, above, op, r.s); } else { LiftFailure(s, above, op, r); }
    }
  }

  lemma LiftDone(s: Stack, above: nat, op: LayerOp, base: Stack)
    requires Coherent(s) && 1 <= above && above + 2 <= |Layers(s)|
    requires Refines(s.base, Inside(above - 1, op), Done(base)) && View(base) == View(s.base)
    ensures Refines(s, Inside(above, op), Done(s.(base := base)))
  {
    hide Over, EntriesOk, PlainStep, HashStep, NullWrite;
    PlainLift(Layers(s.base), View(s), above, op);
    HashLift(Hashes(s.base), s.hashBlock, above, op);
  }

  lemma PlainLift(v: seq<Coins>, x: Coins, above: nat, op: LayerOp)
    requires 1 <= above && above + 1 <= |v|
    ensures PlainStep(v + [x], Inside(above, op)) == PlainStep(v, Inside(above - 1, op)) + [x]
  {
  }

  lemma HashLift(h: seq<nat>, x: nat, above: nat, op: LayerOp)
    requires 1 <= above && above + 1 <= |h|
    ensures HashStep(h + [x], Inside(above, op)) == HashStep(h, Inside(above - 1, op)) + [x]
    ensures NullWrite(h + [x], Inside(above, op)) == NullWrite(h, Inside(above - 1, op))
  {
    hide Filled;
    if op.Ask? { FilledBelow(h + [x], h, |h| - above); }
  }

  lemma LiftFailure(s: Stack, above: nat, op: LayerOp, r: Outcome)
    requires 1 <= above && above + 2 <= |Layers(s)| && !r.Done?
    requires Refines(s.base, Inside(above - 1, op), r)
    ensures Refines(s, Inside(above, op), r)
  {
    hide View, Filled;
  }

  lemma FilledBelow(h: seq<nat>, g: seq<nat>, k: nat)
    requires k < |g| && |h| == |g| + 1 && h[..|g|] == g
    ensures Filled(h, k) == Filled(g, k) + [h[|g|]]
  {
    assert h[..k + 1] == h[..|g|][..k + 1];
    BestPrefix(h, g, k);
    BestPrefix(g, g, k);
    var a, b := Filled(h, k), Filled(g, k);
    assert a == a[..k + 1] + a[k + 1..];
    assert b == b[..k + 1] + b[k + 1..];
    assert h[k + 1..] == g[k + 1..] + [h[|g|]];
  }

  /** One step on the stack is the step on plain maps and on block hashes. It never
      throws, and it fails exactly on a write-back of the lowest cache without a hash. */
  lemma StepRefines(s: Stack, op: Op)
    requires Coherent(s) && Allowed(Layers(s), op)
    ensures Refines(s, op, Step(s, op))
  {
    hide View, Inner, Refines, Coherent;
    match op
    case Inside(above, lop) => InnerRefines(s, above, lop);
    case Add(o, coin, overwrite) => AddRefines(s, o, coin, overwrite);
    case Spend(o) => SpendRefines(s, o);
    case Mark(hash) => MarkRefines(s, hash);
    case Push => PushRefines(s);
    case Discard => DiscardRefines(s);
  }

  lemma AddRefines(s: Stack, o: OutPoint, coin: Coin, overwrite: bool)
    requires Coherent(s) && Allowed(Layers(s), Add(o, coin, overwrite))
    ensures Refines(s, Add(o, coin, overwrite), Step(s, Add(o, coin, overwrite)))
  {
    hide View, Coherent;
    AddCoinKeeps(s, o, coin, overwrite);
  }

  lemma MarkRefines(s: Stack, hash: nat)
    requires Coherent(s) && s.Cache?
    ensures Refines(s, Mark(hash), Step(s, Mark(hash)))
  {
    hide Over, EntriesOk;
    assert View(Cache(s.entries, hash, s.base)) == View(s);
  }

  lemma SpendRefines(s: Stack, o: OutPoint)
    requires Coherent(s) && Allowed(Layers(s), Spend(o))
    ensures Refines(s, Spend(o), Step(s, Spend(o)))
  {
    hide View, Coherent, SpendCoin;
    SpendCoinKeeps(s, o);
    LookLayers(s, o);
    SpendLayers(s, o);
  }

  lemma SpendLayers(s: Stack, o: OutPoint)
    requires s.Cache? && Layers(Fetch(s, o)) == Layers(s) && Hashes(Fetch(s, o)) == Hashes(s)
    ensures Layers(SpendCoin(s, o).0) == Layers(s)[..|Layers(s)| - 1] + [View(SpendCoin(s, o).0)]
    ensures Hashes(SpendCoin(s, o).0) == Hashes(s)
  {
    hide View, Fetch;
    assert Layers(Fetch(s, o).base) == Layers(s)[..|Layers(s)| - 1];
    assert Hashes(Fetch(s, o).base) == Hashes(s)[..|Hashes(s)| - 1];
  }

  lemma PushRefines(s: Stack)
    requires Coherent(s)
    ensures Refines(s, Push, Step(s, Push))
  {
    hide View;
    PushView(s);
  }

  lemma PushView(s: Stack)
    ensures View(Cache(map[], 0, s)) == View(s)
  {
    hide Over;
    OverNothing(View(s));
  }

  lemma DiscardRefines(s: Stack)
    requires Coherent(s) && s.Cache?
    ensures Refines(s, Discard, Step(s, Discard))
  {
    hide View;
  }

  // Whole runs

  ghost predicate AllowedRun(v: seq<Coins>, ops: seq<Op>)
    decreases |ops|
  {
    ops == [] || (Allowed(v, ops[0]) && AllowedRun(PlainStep(v, ops[0]), ops[1..]))
  }

  function PlainRun(v: seq<Coins>, ops: seq<Op>): (r: seq<Coins>)
    requires AllowedRun(v, ops)
    decreases |ops|
  {
    if ops == [] then v else PlainRun(PlainStep(v, ops[0]), ops[1..])
  }

  /** No write-back hands the database a null hash. Coins play no part in this. */
  predicate GoesThrough(h: seq<nat>, ops: seq<Op>)
    decreases |ops|
  {
    ops == [] || (Fits(|h|, ops[0]) && !NullWrite(h, ops[0]) && GoesThrough(HashStep(h, ops[0]), ops[1..]))
  }

  function HashRun(h: seq<nat>, ops: seq<Op>): seq<nat>
    requires GoesThrough(h, ops)
    decreases |ops|
  {
    if ops == [] then h else HashRun(HashStep(h, ops[0]), ops[1..])
  }

  ghost function Run(s: Stack, ops: seq<Op>): (r: Outcome)
    decreases |ops|
  {
    if ops == [] then Done(s)
    else if !Allowed(Layers(s), ops[0]) then Thrown
    else
      var r := Step(s, ops[0]);
      if r.Done? then Run(r.s, ops[1..]) else r
  }

  /** A run that is allowed on plain maps never throws on the stack. It goes through
      exactly when it goes through on the hashes alone, and then flags are honest and
      every layer shows exactly the plain map and holds exactly the plain hash. */
  lemma {:induction false} RunRefines(s: Stack, ops: seq<Op>)
    requires Coherent(s) && AllowedRun(Layers(s), ops)
    ensures var r := Run(s, ops);
      && !r.Thrown?
      && (r.Done? <==> GoesThrough(Hashes(s), ops))
      && (r.Done? ==>
            Coherent(r.s) && Layers(r.s) == PlainRun(Layers(s), ops) && Hashes(r.s) == HashRun(Hashes(s), ops))
    decreases |ops|
  {
    hide Coherent, Layers, Hashes, PlainStep, HashStep, Step, NullWrite;
    if ops != [] {
      StepRefines(s, ops[0]);
      if Step(s, ops[0]).Done? { RunRefines(Step(s, ops[0]).s, ops[1..]); }
    }
  }

  // The best block

  /** What every layer reports as its best block. */
  function Reports(h: seq<nat>): seq<nat> {
    seq(|h|, k requires 0 <= k < |h| => Best(h, k))
  }

  /** What reports are meant to become: written back, a layer passes its report down;
      marked with the null hash, a cache reports what the layer below does. */
  function ReportStep(b: seq<nat>, op: Op): seq<nat>
    requires Fits(|b|, op)
  {
    var top := |b| - 1;
    match op
    case Inside(above, WriteBack) => b[top - above - 1 := b[top - above]]
    case Mark(hash) => b[top := if hash == 0 then b[top - 1] else hash]
    case Push => b + [b[top]]
    case Discard => b[..top]
    case _ => b
  }

  /** A write-back passes its report down, except that a cache without a hash makes the
      cache below forget its own. */
  predicate PassesDown(h: seq<nat>, op: Op)
    requires Fits(|h|, op) && !NullWrite(h, op)
  {
    op.Inside? && op.op.WriteBack? ==>
      var k := |h| - 1 - op.above; h[k] != 0 || Best(h, k - 1) == Best(h, k - 2)
  }

  /** Reports change as meant exactly when PassesDown. */
  lemma StepReports(h: seq<nat>, op: Op)
    requires Fits(|h|, op) && !NullWrite(h, op)
    ensures Reports(HashStep(h, op)) == ReportStep(Reports(h), op) <==> PassesDown(h, op)
  {
    hide Best, Filled;
    var r := HashStep(h, op);
    var top := |h| - 1;
    match op
    case Inside(above, WriteBack) => WriteReports(h, top - above);
    case Inside(above, Ask) => FilledReports(h, top - above);
    case Mark(hash) => BestUpTo(h, r, top); BestStep(r, top);
    case Push => BestUpTo(h, r, |h|); BestStep(r, |h|);
    case Discard => BestUpTo(h, r, top);
    case _ =>
  }

  lemma BestStep(h: seq<nat>, k: nat)
    requires 0 < k < |h|
    ensures Best(h, k) == if h[k] != 0 then h[k] else Best(h, k - 1)
  {
  }

  lemma BestUpTo(h: seq<nat>, g: seq<nat>, n: nat)
    requires n <= |h| && n <= |g| && h[..n] == g[..n]
    ensures forall k | 0 <= k < n :: Best(h, k) == Best(g, k)
  {
    forall k | 0 <= k < n ensures Best(h, k) == Best(g, k) {
      assert h[..k + 1] == h[..n][..k + 1] && g[..k + 1] == g[..n][..k + 1];
      BestPrefix(h, g, k);
    }
  }

  /** Layers from k up report the same again if layer k does and they hold the same hashes. */
  lemma {:induction false} BestAbove(h: seq<nat>, g: seq<nat>, k: nat, j: nat)
    requires k <= j < |h| == |g| && h[k + 1..] == g[k + 1..] && Best(h, k) == Best(g, k)
    ensures Best(h, j) == Best(g, j)
  {
    if k < j {
      BestAbove(h, g, k, j - 1);
      assert h[j] == h[k + 1..][j - k - 1] == g[j];
    }
  }

  lemma WriteReports(h: seq<nat>, k: nat)
    requires 0 < k < |h| && (k == 1 ==> h[1] != 0)
    ensures Reports(h[k - 1 := h[k]]) == Reports(h)[k - 1 := Best(h, k)] <==>
      h[k] != 0 || Best(h, k - 1) == Best(h, k - 2)
  {
    hide Best;
    var g := h[k - 1 := h[k]];
    BestUpTo(h, g, k - 1);
    BestStep(h, k);
    BestStep(g, k);
    if h[k] != 0 {
      Own(g, k - 1);
    } else {
      BestStep(g, k - 1);
      assert Reports(g)[k - 1] == Best(h, k - 2) && Reports(h)[k - 1 := Best(h, k)][k - 1] == Best(h, k - 1);
    }
    if Best(g, k) == Best(h, k) {
      forall j | k <= j < |h| ensures Best(g, j) == Best(h, j) {
        BestAbove(g, h, k, j);
      }
    }
  }

  lemma Own(h: seq<nat>, k: nat)
    requires k < |h| && h[k] != 0
    ensures Best(h, k) == h[k]
  {
  }

  lemma {:induction false} FilledReports(h: seq<nat>, k: nat)
    requires k < |h|
    ensures Reports(Filled(h, k)) == Reports(h)
  {
    if k > 0 && h[k] == 0 {
      FilledReports(h, k - 1);
      var g, f := Filled(h, k - 1), Filled(h, k);
      assert forall j | 0 <= j < |h| :: Reports(g)[j] == Reports(h)[j];
      assert f == g[k := Best(h, k)];
      BestUpTo(f, g, k);
      assert Best(f, k) == Best(g, k) by {
        BestPrefix(h, h, k - 1);
        assert g[k] == g[k..][0] == h[k..][0];
        if Best(h, k) == 0 { BestStep(f, k); BestStep(g, k); } else { Own(f, k); }
      }
      forall j | k <= j < |h| ensures Best(f, j) == Best(g, j) {
        BestAbove(f, g, k, j);
      }
    }
  }

  /** Every write-back comes from a cache that holds a hash. */
  predicate MarkedRun(h: seq<nat>, ops: seq<Op>)
    decreases |ops|
  {
    ops != [] ==>
    && Fits(|h|, ops[0])
    && (ops[0].Inside? && ops[0].op.WriteBack? ==> h[|h| - 1 - ops[0].above] != 0)
    && MarkedRun(HashStep(h, ops[0]), ops[1..])
  }

  predicate FitsRun(layers: nat, ops: seq<Op>)
    decreases |ops|
  {
    ops != [] ==>
    && Fits(layers, ops[0])
    && FitsRun(if ops[0].Push? then layers + 1 else if ops[0].Discard? then layers - 1 else layers, ops[1..])
  }

  function ReportRun(b: seq<nat>, ops: seq<Op>): (r: seq<nat>)
    requires FitsRun(|b|, ops)
    decreases |ops|
  {
    if ops == [] then b else ReportRun(ReportStep(b, ops[0]), ops[1..])
  }

  lemma {:induction false} MarkedReports(h: seq<nat>, ops: seq<Op>)
    requires MarkedRun(h, ops)
    ensures GoesThrough(h, ops) && FitsRun(|h|, ops) && Reports(HashRun(h, ops)) == ReportRun(Reports(h), ops)
    decreases |ops|
  {
    hide Best, Filled;
    if ops != [] {
      StepReports(h, ops[0]);
      MarkedReports(HashStep(h, ops[0]), ops[1..]);
    }
  }

  /** When only caches with a hash are written back, the run goes through, and at its end
      every layer shows the plain map and reports the block the plain reports say. */
  lemma MarkedRunReports(s: Stack, ops: seq<Op>)
    requires Coherent(s) && AllowedRun(Layers(s), ops) && MarkedRun(Hashes(s), ops)
    ensures Run(s, ops).Done? && FitsRun(|Hashes(s)|, ops)
    ensures var u := Run(s, ops).s; var b := ReportRun(Reports(Hashes(s)), ops);
      && Layers(u) == PlainRun(Layers(s), ops)
      && Reports(Hashes(u)) == b && |b| > 0 && BestBlock(u) == b[|b| - 1]
  {
    hide Coherent, Layers, Best;
    RunRefines(s, ops);
    MarkedReports(Hashes(s), ops);
    BestIsBestBlock(Run(s, ops).s);
  }

  /** A run of two operations that fails: the new cache is written back unmarked. */
  lemma UnmarkedWriteFails()
    ensures var s := Database(map[], 5); var ops := [Push, Inside(0, WriteBack)];
      Coherent(s) && AllowedRun(Layers(s), ops) && Run(s, ops) == Aborted
  {
    var s, ops := Database(map[], 5), [Push, Inside(0, WriteBack)];
    var v := PlainStep(Layers(s), ops[0]);
    assert ops[1..][0] == ops[1] && ops[1..][1..] == [];
    assert AllowedRun(v, ops[1..]) by { assert AllowedRun(PlainStep(v, ops[1]), []); }
    RunRefines(s, ops);
    assert HashStep(Hashes(s), ops[0]) == [5, 0];
    assert !GoesThrough([5, 0], ops[1..]);
  }

  // Adding the outputs of a transaction

  /** The outputs of a transaction as coins, with the flag the caller passes for each. */
  datatype Tx = Tx(id: nat, coinBase: bool, outs: seq<Coin>)

  function AddCoins(s: Stack, tx: Tx, check: bool, i: nat): (r: Outcome)
    requires s.Cache? && forall k | 0 <= k < |tx.outs| :: !tx.outs[k].IsSpent()
    ensures !r.Aborted?
    decreases |tx.outs| - i
  {
    if i >= |tx.outs| then Done(s)
    else
      var o := OutPoint(tx.id, i);
      var f := if check then Fetch(s, o) else s;
      var overwrite := if check then Shown(f.entries, o) else tx.coinBase;
      var r := AddCoin(f, o, tx.outs[i], overwrite);
      if r.Done? then AddCoins(r.s, tx, check, i + 1) else r
  }

  function WithOutputs(v: Coins, tx: Tx, i: nat): Coins
    decreases |tx.outs| - i
  {
    if i >= |tx.outs| then v
    else WithOutputs(if tx.outs[i].IsUnspendable() then v else v[OutPoint(tx.id, i) := tx.outs[i]], tx, i + 1)
  }

  /** With check, or for a coinbase, any transaction can be added to any coherent
      cache; otherwise its outputs must not be there yet. */
  lemma {:induction false} AddCoinsKeeps(s: Stack, tx: Tx, check: bool, i: nat)
    requires Coherent(s) && s.Cache? && forall k | 0 <= k < |tx.outs| :: !tx.outs[k].IsSpent()
    requires check || tx.coinBase || forall k | i <= k < |tx.outs| :: OutPoint(tx.id, k) !in View(s)
    ensures var r := AddCoins(s, tx, check, i);
      r.Done? && r.s.Cache? && Coherent(r.s) && View(r.s) == WithOutputs(View(s), tx, i)
    decreases |tx.outs| - i
  {
    hide Coherent, View;
    if i < |tx.outs| {
      var o := OutPoint(tx.id, i);
      FetchKeeps(s, o);
      var f := if check then Fetch(s, o) else s;
      ShownIsView(f, o);
      var overwrite := if check then Shown(f.entries, o) else tx.coinBase;
      FetchedShown(s, o);
      AddCoinKeeps(f, o, tx.outs[i], overwrite);
      AddCoinsKeeps(AddCoin(f, o, tx.outs[i], overwrite).s, tx, check, i + 1);
    }
  }

  lemma ShownIsView(f: Stack, o: OutPoint)
    requires f.Cache?
    ensures Shown(f.entries, o) ==> o in View(f)
    ensures o in f.entries && !Shown(f.entries, o) ==> o !in View(f)
    ensures o !in f.entries ==> (o in View(f) <==> o in View(f.base))
  {
    OverAt(View(f.base), f.entries, o);
  }

  lemma FetchedShown(s: Stack, o: OutPoint)
    requires s.Cache? && Coherent(s)
    ensures !Shown(Fetch(s, o).entries, o) ==> o !in View(s)
  {
    FetchKeeps(s, o);
    ShownIsView(Fetch(s, o), o);
  }

  // One write-back and the best block

  /** Flush hands its own block hash down even when it is null, and then the layer
      below forgets the hash it had set. The best block survives exactly when the
      flushed cache has a hash, or the layer below would report the same without its own. */
  lemma FlushBestBlock(s: Stack)
    requires s.Cache? && s.base.Cache?
    ensures BestBlock(Flush(s)) == BestBlock(s) <==>
      s.hashBlock != 0 || s.base.hashBlock == 0 || s.base.hashBlock == BestBlock(s.base.base)
  {
  }

  /** A stack in which flushing an untouched top cache turns the best block from 7 back to 5. */
  lemma FlushForgetsBestBlock()
    ensures var s := Cache(map[], 0, Cache(map[], 7, Database(map[], 5)));
      Coherent(s) && BestBlock(s) == 7 && BestBlock(Flush(s)) == 5
  {
    var mid := Cache(map[], 7, Database(map[], 5));
    assert BestBlock(mid) == 7;
    FlushBestBlock(Cache(map[], 0, mid));
    assert Flush(Cache(map[], 0, mid)).base.base == Database(map[], 5);
  }
}
