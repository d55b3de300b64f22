/** The verification queue as a step system: one master and any number of workers,
    interleaved at the mutex. Thread 0 is the master. */
module CheckQueue {

  type Check = nat

  /** Where a thread is in the loop. A batch is carried until it is accounted for. */
  datatype Thread =
    | Outside
    | AtLock(batch: seq<Check>, ok: bool)    // about to take the mutex; no batch on the first round
    | Holding                                // holding the mutex, between accounting and what follows
    | Waiting                                // in the condition wait
    | Notified                               // woken, but without the mutex yet
    | Working(batch: seq<Check>, ok: bool)   // running its batch outside the mutex

  /** added and done are the checks of this round: all of them, and those accounted for. */
  datatype State = State(queue: seq<Check>, nIdle: int, nTotal: int, fAllOk: bool, nTodo: int,
                         threads: seq<Thread>, added: multiset<Check>, done: multiset<Check>)

  /** What a step on the master's side gives back. */
  datatype Next = Next(s: State, returned: bool, result: bool)

  // Sums over threads

  function Sum(f: Thread -> nat, threads: seq<Thread>): nat {
    if threads == [] then 0 else Sum(f, threads[..|threads| - 1]) + f(threads[|threads| - 1])
  }

  lemma {:induction false} SumUpdate(f: Thread -> nat, threads: seq<Thread>, t: nat, x: Thread)
    requires t < |threads|
    ensures Sum(f, threads[t := x]) + f(threads[t]) == Sum(f, threads) + f(x)
    ensures Sum(f, threads) >= f(threads[t])
  {
    var n := |threads| - 1;
    if t == n {
      assert threads[t := x][..n] == threads[..n];
    } else {
      SumUpdate(f, threads[..n], t, x);
      assert threads[t := x][..n] == threads[..n][t := x];
    }
  }

  lemma {:induction false} SumSame(f: Thread -> nat, a: seq<Thread>, b: seq<Thread>)
    requires |a| == |b| && forall i | 0 <= i < |a| :: f(a[i]) == f(b[i])
    ensures Sum(f, a) == Sum(f, b)
  {
    if a != [] { SumSame(f, a[..|a| - 1], b[..|a| - 1]); }
  }

  lemma {:induction false} SumPositive(f: Thread -> nat, threads: seq<Thread>)
    requires Sum(f, threads) > 0
    ensures exists t :: 0 <= t < |threads| && f(threads[t]) > 0
  {
    var n := |threads| - 1;
    if f(threads[n]) == 0 {
      SumPositive(f, threads[..n]);
      var t :| 0 <= t < n && f(threads[..n][t]) > 0;
      assert f(threads[t]) > 0;
    }
  }

  function Batch(x: Thread): seq<Check> {
    if x.AtLock? || x.Working? then x.batch else []
  }

  function BatchSize(x: Thread): nat { |Batch(x)| }

  function IsIdle(x: Thread): nat { if x.Waiting? || x.Notified? then 1 else 0 }

  /** Threads that nTotal counts: inside the loop and past its first line. */
  function IsCounted(x: Thread): nat { if x.Outside? || (x.AtLock? && x.batch == []) then 0 else 1 }

  function Batches(threads: seq<Thread>): multiset<Check> {
    if threads == [] then multiset{}
    else Batches(threads[..|threads| - 1]) + multiset(Batch(threads[|threads| - 1]))
  }

  lemma Carry(a: multiset<Check>, b: multiset<Check>, l: multiset<Check>, m: multiset<Check>, n: multiset<Check>)
    requires a + m == b + n
    ensures (a + l) + m == (b + l) + n
  {
    assert (a + l) + m == (a + m) + l;
    assert (b + l) + n == (b + n) + l;
  }

  lemma Shift(a: multiset<Check>, m: multiset<Check>, n: multiset<Check>)
    ensures (a + m) + n == (a + n) + m
  {
  }

  lemma {:induction false} BatchesUpdate(threads: seq<Thread>, t: nat, x: Thread)
    requires t < |threads|
    ensures Batches(threads[t := x]) + multiset(Batch(threads[t])) == Batches(threads) + multiset(Batch(x))
  {
    var n := |threads| - 1;
    hide Batch;
    if t == n {
      assert threads[t := x][..n] == threads[..n];
      Shift(Batches(threads[..n]), multiset(Batch(x)), multiset(Batch(threads[n])));
    } else {
      BatchesUpdate(threads[..n], t, x);
      assert threads[t := x][..n] == threads[..n][t := x];
      Carry(Batches(threads[..n][t := x]), Batches(threads[..n]), multiset(Batch(threads[n])),
            multiset(Batch(threads[t])), multiset(Batch(x)));
    }
  }

  lemma {:induction false} BatchesSame(a: seq<Thread>, b: seq<Thread>)
    requires |a| == |b| && forall i | 0 <= i < |a| :: Batch(a[i]) == Batch(b[i])
    ensures Batches(a) == Batches(b)
  {
    if a != [] { BatchesSame(a[..|a| - 1], b[..|a| - 1]); }
  }

  // The steps

  function Max(a: nat, b: nat): nat { if a >= b then a else b }
  function Min(a: nat, b: nat): nat { if a <= b then a else b }

  /** How many checks a thread takes from a non-empty queue. */
  function HowMany(s: State, batchSize: nat): (n: nat)
    requires s.nTotal >= 0 && s.nIdle >= 0
    ensures s.queue != [] ==> 1 <= n <= |s.queue|
  {
    Max(1, Min(batchSize, |s.queue| / (s.nTotal + s.nIdle + 1)))
  }

  /** A batch is the largest that is at most the batch size and leaves every thread, and every idle one again, as much;
      but always at least one check. */
  lemma BatchShare(s: State, batchSize: nat)
    requires s.nTotal >= 0 && s.nIdle >= 0
    ensures var n, shares := HowMany(s, batchSize), s.nTotal + s.nIdle + 1;
      && n >= 1
      && (n > 1 ==> n <= batchSize && n * shares <= |s.queue|)
      && forall k: nat | n < k <= batchSize :: k * shares > |s.queue|
  {
    var n, shares, size := HowMany(s, batchSize), s.nTotal + s.nIdle + 1, |s.queue|;
    Share(size, shares);
    forall k: nat | n < k <= batchSize ensures k * shares > size {
      ShareGrows(size / shares + 1, k, shares);
    }
    if n > 1 { ShareGrows(n, size / shares, shares); }
  }

  lemma Share(size: int, shares: int)
    requires shares > 0
    ensures (size / shares) * shares <= size < (size / shares + 1) * shares
  {
    assert size == (size / shares) * shares + size % shares;
  }

  lemma ShareGrows(a: int, b: int, d: int)
    requires a <= b && d >= 0
    ensures a * d <= b * d
  {
  }

  /** The last n checks of the queue, last first. */
  function Taken(queue: seq<Check>, n: nat): seq<Check>
    requires n <= |queue|
  {
    seq(n, i requires 0 <= i < n => queue[|queue| - 1 - i])
  }

  /** The master leaves; the round is over. */
  function Leave(s: State, t: nat): State
    requires t < |s.threads|
  {
    s.(nTotal := s.nTotal - 1, fAllOk := true, threads := s.threads[t := Outside], added := multiset{}, done := multiset{})
  }

  function Sleep(s: State, t: nat): State
    requires t < |s.threads|
  {
    s.(nIdle := s.nIdle + 1, threads := s.threads[t := Waiting])
  }

  function Take(s: State, t: nat, n: nat): State
    requires t < |s.threads| && n <= |s.queue|
  {
    s.(queue := s.queue[..|s.queue| - n], threads := s.threads[t := Working(Taken(s.queue, n), s.fAllOk)])
  }

  /** The condition loop under the mutex: return, wait, or take a batch. */
  function Proceed(s: State, t: nat, batchSize: nat): Next
    requires t < |s.threads| && s.threads[t].Holding? && s.nTotal >= 0 && s.nIdle >= 0
  {
    if s.queue == [] then
      if t == 0 && s.nTodo == 0 then Next(Leave(s, t), true, s.fAllOk)
      else Next(Sleep(s, t), false, false)
    else Next(Take(s, t, HowMany(s, batchSize)), false, false)
  }

  /** condMaster.notify_one. */
  function NotifyMaster(threads: seq<Thread>): seq<Thread> {
    if threads != [] && threads[0].Waiting? then threads[0 := Notified] else threads
  }

  /** A thread gets the mutex at the top of the loop and accounts for its batch. */
  function Account(s: State, t: nat): State
    requires t < |s.threads| && s.threads[t].AtLock?
  {
    var b := s.threads[t].batch;
    var cleared := s.threads[t := Holding];
    if b == [] then s.(nTotal := s.nTotal + 1, threads := cleared)
    else s.(fAllOk := s.fAllOk && s.threads[t].ok, nTodo := s.nTodo - |b|, done := s.done + multiset(b),
            threads := if s.nTodo - |b| == 0 && t != 0 then NotifyMaster(cleared) else cleared)
  }

  function Lock(s: State, t: nat, batchSize: nat): Next
    requires t < |s.threads| && s.threads[t].AtLock? && s.nTotal >= 0 && s.nIdle >= 0
  {
    Proceed(Account(s, t), t, batchSize)
  }

  /** Leaving the condition wait, notified or not. */
  function Wake(s: State, t: nat, batchSize: nat): Next
    requires t < |s.threads| && (s.threads[t].Waiting? || s.threads[t].Notified?) && s.nTotal >= 0 && s.nIdle >= 1
  {
    Proceed(s.(nIdle := s.nIdle - 1, threads := s.threads[t := Holding]), t, batchSize)
  }

  predicate AllOk(ok: Check -> bool, b: seq<Check>) {
    forall i | 0 <= i < |b| :: ok(b[i])
  }

  /** Running a batch, stopping at the first failure. */
  function Work(ok: Check -> bool, s: State, t: nat): State
    requires t < |s.threads| && s.threads[t].Working?
  {
    s.(threads := s.threads[t := AtLock(s.threads[t].batch, s.threads[t].ok && AllOk(ok, s.threads[t].batch))])
  }

  function Enter(s: State, t: nat): State
    requires t < |s.threads| && s.threads[t].Outside?
  {
    s.(threads := s.threads[t := AtLock([], true)])
  }

  /** The master adds checks between waits; woken are the workers it notifies. */
  function Add(s: State, checks: seq<Check>, woken: set<nat>): State
    requires |s.threads| > 0 && s.threads[0].Outside?
  {
    s.(queue := s.queue + checks, nTodo := s.nTodo + |checks|, added := s.added + multiset(checks),
       threads := seq(|s.threads|, i requires 0 <= i < |s.threads| =>
         if i in woken && s.threads[i].Waiting? then Notified else s.threads[i]))
  }

  // The invariant

  /** Some check of the round fails. */
  ghost predicate Fails(ok: Check -> bool, m: multiset<Check>) {
    exists c :: c in m && !ok(c)
  }

  /** What a thread's verdict stands for. */
  ghost predicate VerdictOk(ok: Check -> bool, x: Thread, added: multiset<Check>) {
    && (x.Working? && !x.ok ==> Fails(ok, added))
    && (x.AtLock? && !x.ok ==> Fails(ok, added))
    && (x.AtLock? && x.ok ==> AllOk(ok, x.batch))
    && (x.Working? ==> x.batch != [])
    && (x.AtLock? && x.batch == [] ==> x.ok)
  }

  ghost predicate VerdictsOk(ok: Check -> bool, threads: seq<Thread>, added: multiset<Check>) {
    forall i | 0 <= i < |threads| :: VerdictOk(ok, threads[i], added)
  }

  /** The counters are exact. */
  ghost predicate Counted(s: State) {
    && s.nTodo == |s.queue| + Sum(BatchSize, s.threads)
    && s.nIdle == Sum(IsIdle, s.threads)
    && s.nTotal == Sum(IsCounted, s.threads)
  }

  /** No check of the round is lost, repeated or foreign. */
  ghost predicate Conserved(s: State) {
    multiset(s.queue) + Batches(s.threads) + s.done == s.added
  }

  /** The running verdict is the conjunction of what is accounted for, up to failures
      that are already known. */
  ghost predicate Judged(ok: Check -> bool, s: State) {
    && (s.fAllOk ==> forall c | c in s.done :: ok(c))
    && (!s.fAllOk ==> Fails(ok, s.added))
  }

  /** The master sleeps only while work is under way, and nothing is queued meanwhile. */
  ghost predicate MasterOk(s: State) {
    && |s.threads| > 0
    && (s.threads[0].Waiting? ==> s.nTodo > 0)
    && (s.threads[0].Waiting? || s.threads[0].Notified? ==> s.queue == [])
  }

  ghost predicate Valid(ok: Check -> bool, s: State) {
    && Counted(s) && Conserved(s) && Judged(ok, s) && MasterOk(s) && VerdictsOk(ok, s.threads, s.added)
  }

  // Every step keeps it

  lemma ThreadUpdate(s: State, t: nat, x: Thread)
    requires t < |s.threads|
    ensures var threads := s.threads[t := x];
      && Sum(BatchSize, threads) + BatchSize(s.threads[t]) == Sum(BatchSize, s.threads) + BatchSize(x)
      && Sum(IsIdle, threads) + IsIdle(s.threads[t]) == Sum(IsIdle, s.threads) + IsIdle(x)
      && Sum(IsCounted, threads) + IsCounted(s.threads[t]) == Sum(IsCounted, s.threads) + IsCounted(x)
      && Batches(threads) + multiset(Batch(s.threads[t])) == Batches(s.threads) + multiset(Batch(x))
    ensures Sum(IsIdle, s.threads) >= IsIdle(s.threads[t]) && Sum(IsCounted, s.threads) >= IsCounted(s.threads[t])
    ensures Sum(BatchSize, s.threads) >= BatchSize(s.threads[t])
    ensures Batch(x) == Batch(s.threads[t]) ==> Batches(s.threads[t := x]) == Batches(s.threads)
  {
    if Batch(x) == Batch(s.threads[t]) { BatchesSame(s.threads[t := x], s.threads); }
    SumUpdate(BatchSize, s.threads, t, x);
    SumUpdate(IsIdle, s.threads, t, x);
    SumUpdate(IsCounted, s.threads, t, x);
    BatchesUpdate(s.threads, t, x);
  }

  lemma NotifyMasterSame(threads: seq<Thread>)
    ensures var u := NotifyMaster(threads);
      && |u| == |threads|
      && Sum(BatchSize, u) == Sum(BatchSize, threads) && Sum(IsIdle, u) == Sum(IsIdle, threads)
      && Sum(IsCounted, u) == Sum(IsCounted, threads) && Batches(u) == Batches(threads)
  {
    var u := NotifyMaster(threads);
    SumSame(BatchSize, u, threads);
    SumSame(IsIdle, u, threads);
    SumSame(IsCounted, u, threads);
    BatchesSame(u, threads);
  }

  lemma FailsMore(ok: Check -> bool, a: multiset<Check>, b: multiset<Check>)
    requires Fails(ok, a) && a <= b
    ensures Fails(ok, b)
  {
    var c :| c in a && !ok(c);
    assert c in b;
  }

  lemma AccountCounted(s: State, t: nat)
    requires Counted(s) && t < |s.threads| && s.threads[t].AtLock?
    ensures Counted(Account(s, t))
  {
    hide Sum;
    ThreadUpdate(s, t, Holding);
    NotifyMasterSame(s.threads[t := Holding]);
  }

  lemma AccountConserved(s: State, t: nat)
    requires Conserved(s) && t < |s.threads| && s.threads[t].AtLock?
    ensures Conserved(Account(s, t))
  {
    hide Sum, Batches;
    var x, cleared := s.threads[t], s.threads[t := Holding];
    ThreadUpdate(s, t, Holding);
    NotifyMasterSame(cleared);
    assert multiset(Batch(Holding)) == multiset{};
    MoveOver(multiset(s.queue), Batches(s.threads), Batches(cleared), multiset(x.batch), s.done, s.added);
    if x.batch == [] { assert multiset(x.batch) == multiset{}; }
  }

  lemma MoveOver(q: multiset<Check>, b: multiset<Check>, b2: multiset<Check>, m: multiset<Check>, d: multiset<Check>, a: multiset<Check>)
    requires q + b + d == a && b2 + m == b
    ensures q + b2 + (d + m) == a
  {
    assert q + b2 + (d + m) == q + (b2 + m) + d;
  }

  lemma AccountJudged(ok: Check -> bool, s: State, t: nat)
    requires Judged(ok, s) && VerdictsOk(ok, s.threads, s.added) && t < |s.threads| && s.threads[t].AtLock?
    ensures Judged(ok, Account(s, t)) && VerdictsOk(ok, Account(s, t).threads, s.added)
  {
    var x, u := s.threads[t], Account(s, t);
    assert VerdictOk(ok, s.threads[t], s.added);
    forall c | c in u.done && u.fAllOk ensures ok(c) {
      if c !in s.done { assert c in multiset(x.batch); assert c in x.batch; }
    }
    forall i | 0 <= i < |u.threads| ensures VerdictOk(ok, u.threads[i], s.added) {
      assert VerdictOk(ok, s.threads[i], s.added);
    }
  }

  lemma AccountKeeps(ok: Check -> bool, s: State, t: nat)
    requires Valid(ok, s) && t < |s.threads| && s.threads[t].AtLock?
    ensures Valid(ok, Account(s, t)) && |Account(s, t).threads| == |s.threads| && Account(s, t).threads[t].Holding?
  {
    hide Counted, Conserved, Judged, VerdictsOk, Sum;
    AccountCounted(s, t);
    AccountConserved(s, t);
    AccountJudged(ok, s, t);
    SumKnown(s, t);
  }

  lemma SumKnown(s: State, t: nat)
    requires Counted(s) && t < |s.threads|
    ensures s.nTodo >= |s.queue| + BatchSize(s.threads[t]) && s.nIdle >= IsIdle(s.threads[t]) && s.nTotal >= IsCounted(s.threads[t])
  {
    ThreadUpdate(s, t, s.threads[t]);
  }

  // Proceeding

  lemma TakenParts(queue: seq<Check>, n: nat)
    requires n <= |queue|
    ensures multiset(queue[..|queue| - n]) + multiset(Taken(queue, n)) == multiset(queue)
  {
    TakenMultiset(queue, n);
    assert queue == queue[..|queue| - n] + queue[|queue| - n..];
  }

  lemma {:induction false} TakenMultiset(queue: seq<Check>, n: nat)
    requires n <= |queue|
    ensures multiset(Taken(queue, n)) == multiset(queue[|queue| - n..])
  {
    if n > 0 {
      TakenMultiset(queue, n - 1);
      var c := queue[|queue| - n];
      assert Taken(queue, n) == Taken(queue, n - 1) + [c];
      assert queue[|queue| - n..] == [c] + queue[|queue| - (n - 1)..];
    } else {
      assert Taken(queue, 0) == [] && queue[|queue|..] == [];
    }
  }

  lemma LeaveKeeps(ok: Check -> bool, s: State, t: nat)
    requires Valid(ok, s) && t < |s.threads| && s.threads[t].Holding? && s.queue == [] && s.nTodo == 0
    ensures Valid(ok, Leave(s, t))
    ensures s.fAllOk <==> forall c | c in s.added :: ok(c)
  {
    hide Sum, Batches;
    ThreadUpdate(s, t, Outside);
    NothingInFlight(s.threads);
    NothingInFlight(s.threads[t := Outside]);
    assert multiset(s.queue) == multiset{};
    assert s.done == s.added;
    var u := Leave(s, t);
    forall i | 0 <= i < |u.threads| ensures VerdictOk(ok, u.threads[i], u.added) {
      assert VerdictOk(ok, s.threads[i], s.added);
      assert Batch(s.threads[i]) == [];
    }
  }

  lemma SleepKeeps(ok: Check -> bool, s: State, t: nat)
    requires Valid(ok, s) && t < |s.threads| && s.threads[t].Holding? && s.queue == [] && (t != 0 || s.nTodo > 0)
    ensures Valid(ok, Sleep(s, t))
  {
    hide Sum, Batches;
    ThreadUpdate(s, t, Waiting);
    var u := Sleep(s, t);
    forall i | 0 <= i < |u.threads| ensures VerdictOk(ok, u.threads[i], u.added) {
      assert VerdictOk(ok, s.threads[i], s.added);
    }
  }

  lemma TakeCounted(s: State, t: nat, n: nat)
    requires Counted(s) && t < |s.threads| && s.threads[t].Holding? && n <= |s.queue|
    ensures Counted(Take(s, t, n))
  {
    hide Sum;
    ThreadUpdate(s, t, Working(Taken(s.queue, n), s.fAllOk));
  }

  lemma TakeConserved(s: State, t: nat, n: nat)
    requires Conserved(s) && t < |s.threads| && s.threads[t].Holding? && n <= |s.queue|
    ensures Conserved(Take(s, t, n))
  {
    hide Sum, Batches, Taken;
    var u, x := Take(s, t, n), Working(Taken(s.queue, n), s.fAllOk);
    ThreadUpdate(s, t, x);
    assert multiset(Batch(Holding)) == multiset{};
    TakenParts(s.queue, n);
    MoveBack(multiset(s.queue), multiset(u.queue), multiset(x.batch), Batches(s.threads), Batches(u.threads), s.done);
  }

  lemma TakeKeeps(ok: Check -> bool, s: State, t: nat, n: nat)
    requires Valid(ok, s) && t < |s.threads| && s.threads[t].Holding? && 1 <= n <= |s.queue|
    ensures Valid(ok, Take(s, t, n))
  {
    hide Counted, Conserved, Fails;
    TakeCounted(s, t, n);
    TakeConserved(s, t, n);
    var u := Take(s, t, n);
    forall i | 0 <= i < |u.threads| ensures VerdictOk(ok, u.threads[i], u.added) {
      assert VerdictOk(ok, s.threads[i], s.added);
    }
  }

  /** However a thread proceeds the invariant stays, and the master returns exactly the
      conjunction of all checks added in the round, with no batch left anywhere. */
  lemma ProceedKeeps(ok: Check -> bool, s: State, t: nat, batchSize: nat)
    requires Valid(ok, s) && t < |s.threads| && s.threads[t].Holding?
    ensures s.nTotal >= 0 && s.nIdle >= 0
    ensures var u := Proceed(s, t, batchSize);
      && Valid(ok, u.s) && |u.s.threads| == |s.threads|
      && (u.returned ==> (u.result <==> forall c | c in s.added :: ok(c)))
      && (u.returned ==> forall i | 0 <= i < |u.s.threads| :: Batch(u.s.threads[i]) == [])
  {
    hide Counted, Conserved, Judged, VerdictsOk, MasterOk, Sum;
    SumKnown(s, t);
    if s.queue == [] {
      if t == 0 && s.nTodo == 0 {
        LeaveKeeps(ok, s, t);
        LeftEmpty(s, t);
      } else {
        SleepKeeps(ok, s, t);
      }
    } else {
      TakeKeeps(ok, s, t, HowMany(s, batchSize));
    }
  }

  lemma LeftEmpty(s: State, t: nat)
    requires Counted(s) && t < |s.threads| && s.queue == [] && s.nTodo == 0
    ensures forall i | 0 <= i < |s.threads| :: Batch(Leave(s, t).threads[i]) == []
  {
    NothingInFlight(s.threads);
  }

  lemma MoveBack(q: multiset<Check>, q2: multiset<Check>, m: multiset<Check>, b: multiset<Check>, b2: multiset<Check>, d: multiset<Check>)
    requires q2 + m == q && b2 == b + m
    ensures q2 + b2 + d == q + b + d
  {
  }

  /** With nothing left to do no thread carries a batch. */
  lemma {:induction false} NothingInFlight(threads: seq<Thread>)
    requires Sum(BatchSize, threads) == 0
    ensures Batches(threads) == multiset{} && forall i | 0 <= i < |threads| :: Batch(threads[i]) == []
  {
    if threads != [] {
      var n := |threads| - 1;
      NothingInFlight(threads[..n]);
      forall i | 0 <= i < |threads| ensures Batch(threads[i]) == [] {
        if i < n { assert threads[i] == threads[..n][i]; } else { assert BatchSize(threads[n]) == 0; }
      }
    }
  }

  // The public steps

  lemma LockKeeps(ok: Check -> bool, s: State, t: nat, batchSize: nat)
    requires Valid(ok, s) && t < |s.threads| && s.threads[t].AtLock?
    ensures s.nTotal >= 0 && s.nIdle >= 0
    ensures var u := Lock(s, t, batchSize);
      && Valid(ok, u.s) && |u.s.threads| == |s.threads|
      && (u.returned ==> (u.result <==> forall c | c in s.added :: ok(c)))
      && (u.returned ==> forall i | 0 <= i < |u.s.threads| :: Batch(u.s.threads[i]) == [])
  {
    hide Valid, Counted, Account, Proceed;
    AccountKeeps(ok, s, t);
    ValidCounted(ok, s, t);
    AccountSameRound(s, t);
    ProceedKeeps(ok, Account(s, t), t, batchSize);
  }

  lemma ValidCounted(ok: Check -> bool, s: State, t: nat)
    requires Valid(ok, s) && t < |s.threads|
    ensures s.nTotal >= 0 && s.nIdle >= IsIdle(s.threads[t])
  {
    SumKnown(s, t);
  }

  lemma AccountSameRound(s: State, t: nat)
    requires t < |s.threads| && s.threads[t].AtLock?
    ensures Account(s, t).added == s.added
  {
  }

  lemma WokenKeeps(ok: Check -> bool, s: State, t: nat)
    requires Valid(ok, s) && t < |s.threads| && (s.threads[t].Waiting? || s.threads[t].Notified?)
    ensures Valid(ok, s.(nIdle := s.nIdle - 1, threads := s.threads[t := Holding]))
  {
    hide Sum, Batches;
    ThreadUpdate(s, t, Holding);
    var threads := s.threads[t := Holding];
    forall i | 0 <= i < |threads| ensures VerdictOk(ok, threads[i], s.added) {
      assert VerdictOk(ok, s.threads[i], s.added);
    }
  }

  lemma WakeKeeps(ok: Check -> bool, s: State, t: nat, batchSize: nat)
    requires Valid(ok, s) && t < |s.threads| && (s.threads[t].Waiting? || s.threads[t].Notified?)
    ensures s.nTotal >= 0 && s.nIdle >= 1
    ensures var u := Wake(s, t, batchSize);
      && Valid(ok, u.s) && |u.s.threads| == |s.threads|
      && (u.returned ==> (u.result <==> forall c | c in s.added :: ok(c)))
      && (u.returned ==> forall i | 0 <= i < |u.s.threads| :: Batch(u.s.threads[i]) == [])
  {
    hide Valid, Counted, Proceed;
    ValidCounted(ok, s, t);
    WokenKeeps(ok, s, t);
    ProceedKeeps(ok, s.(nIdle := s.nIdle - 1, threads := s.threads[t := Holding]), t, batchSize);
  }

  lemma InAdded(s: State, t: nat, c: Check)
    requires Conserved(s) && t < |s.threads| && c in Batch(s.threads[t])
    ensures c in s.added
  {
    hide Batch;
    BatchWithin(s.threads, t, c);
    assert c in multiset(s.queue) + Batches(s.threads) + s.done;
  }

  lemma {:induction false} BatchWithin(threads: seq<Thread>, t: nat, c: Check)
    requires t < |threads| && c in Batch(threads[t])
    ensures c in Batches(threads)
  {
    var n := |threads| - 1;
    assert c in multiset(Batch(threads[t]));
    if t < n {
      assert threads[..n][t] == threads[t];
      BatchWithin(threads[..n], t, c);
    }
  }

  lemma WorkKeeps(ok: Check -> bool, s: State, t: nat)
    requires Valid(ok, s) && t < |s.threads| && s.threads[t].Working?
    ensures Valid(ok, Work(ok, s, t))
  {
    hide Sum, Batches, Fails;
    var b := s.threads[t].batch;
    var x := AtLock(b, s.threads[t].ok && AllOk(ok, b));
    ThreadUpdate(s, t, x);
    assert VerdictOk(ok, s.threads[t], s.added);
    BatchFailure(ok, s, t);
    var threads := s.threads[t := x];
    forall i | 0 <= i < |threads| ensures VerdictOk(ok, threads[i], s.added) {
      assert VerdictOk(ok, s.threads[i], s.added);
    }
  }

  lemma BatchFailure(ok: Check -> bool, s: State, t: nat)
    requires Conserved(s) && t < |s.threads|
    ensures !AllOk(ok, Batch(s.threads[t])) ==> Fails(ok, s.added)
  {
    if !AllOk(ok, Batch(s.threads[t])) {
      var i :| 0 <= i < |Batch(s.threads[t])| && !ok(Batch(s.threads[t])[i]);
      InAdded(s, t, Batch(s.threads[t])[i]);
    }
  }

  lemma EnterKeeps(ok: Check -> bool, s: State, t: nat)
    requires Valid(ok, s) && t < |s.threads| && s.threads[t].Outside?
    ensures Valid(ok, Enter(s, t))
  {
    hide Sum, Batches, Fails;
    ThreadUpdate(s, t, AtLock([], true));
    var threads := s.threads[t := AtLock([], true)];
    forall i | 0 <= i < |threads| ensures VerdictOk(ok, threads[i], s.added) {
      assert VerdictOk(ok, s.threads[i], s.added);
    }
  }

  lemma AddKeeps(ok: Check -> bool, s: State, checks: seq<Check>, woken: set<nat>)
    requires Valid(ok, s) && s.threads[0].Outside?
    ensures Valid(ok, Add(s, checks, woken))
  {
    hide Sum, Batches;
    var u := Add(s, checks, woken);
    SumSame(BatchSize, u.threads, s.threads);
    SumSame(IsIdle, u.threads, s.threads);
    SumSame(IsCounted, u.threads, s.threads);
    BatchesSame(u.threads, s.threads);
    assert multiset(u.queue) == multiset(s.queue) + multiset(checks);
    AddOver(multiset(s.queue), multiset(checks), Batches(s.threads), s.done);
    assert s.added <= u.added;
    if Fails(ok, s.added) { FailsMore(ok, s.added, u.added); }
    forall i | 0 <= i < |u.threads| ensures VerdictOk(ok, u.threads[i], u.added) {
      assert VerdictOk(ok, s.threads[i], s.added);
    }
  }

  lemma AddOver(q: multiset<Check>, m: multiset<Check>, b: multiset<Check>, d: multiset<Check>)
    ensures (q + m) + b + d == (q + b + d) + m
  {
  }

  // Runs

  datatype Step = StepEnter(t: nat) | StepLock(t: nat) | StepWake(t: nat) | StepWork(t: nat)
                | StepAdd(checks: seq<Check>, woken: set<nat>)

  predicate Enabled(s: State, step: Step) {
    match step
    case StepAdd(_, _) => |s.threads| > 0 && s.threads[0].Outside?
    case StepEnter(t) => t < |s.threads| && s.threads[t].Outside?
    case StepLock(t) => t < |s.threads| && s.threads[t].AtLock?
    case StepWake(t) => t < |s.threads| && (s.threads[t].Waiting? || s.threads[t].Notified?)
    case StepWork(t) => t < |s.threads| && s.threads[t].Working?
  }

  function Apply(ok: Check -> bool, s: State, step: Step, batchSize: nat): Next
    requires Enabled(s, step) && Valid(ok, s)
  {
    match step
    case StepAdd(checks, woken) => Next(Add(s, checks, woken), false, false)
    case StepEnter(t) => Next(Enter(s, t), false, false)
    case StepWork(t) => Next(Work(ok, s, t), false, false)
    case StepLock(t) => LockKeeps(ok, s, t, batchSize); Lock(s, t, batchSize)
    case StepWake(t) => WakeKeeps(ok, s, t, batchSize); Wake(s, t, batchSize)
  }

  lemma ApplyKeeps(ok: Check -> bool, s: State, step: Step, batchSize: nat)
    requires Valid(ok, s) && Enabled(s, step)
    ensures var u := Apply(ok, s, step, batchSize);
      && Valid(ok, u.s)
      && (u.returned ==> (u.result <==> forall c | c in s.added :: ok(c)))
      && (u.returned ==> forall i | 0 <= i < |u.s.threads| :: Batch(u.s.threads[i]) == [])
  {
    hide Valid, Add, Enter, Work, Lock, Wake;
    match step
    case StepAdd(checks, woken) => AddKeeps(ok, s, checks, woken);
    case StepEnter(t) => EnterKeeps(ok, s, t);
    case StepWork(t) => WorkKeeps(ok, s, t);
    case StepLock(t) => LockKeeps(ok, s, t, batchSize);
    case StepWake(t) => WakeKeeps(ok, s, t, batchSize);
  }

  /** What a wait returned, and the checks that had been added for it. */
  datatype Report = Report(result: bool, checks: multiset<Check>)

  function Initial(workers: nat): State {
    State([], 0, 0, true, 0, seq(workers + 1, i => Outside), multiset{}, multiset{})
  }

  lemma {:induction false} AllOutside(n: nat)
    ensures var threads := seq(n, i => Outside);
      && Sum(BatchSize, threads) == 0 && Sum(IsIdle, threads) == 0 && Sum(IsCounted, threads) == 0
      && Batches(threads) == multiset{}
  {
    if n > 0 {
      AllOutside(n - 1);
      assert seq(n, i => Outside)[..n - 1] == seq(n - 1, i => Outside);
    }
  }

  lemma InitialValid(ok: Check -> bool, workers: nat)
    ensures Valid(ok, Initial(workers))
  {
    AllOutside(workers + 1);
  }

  ghost predicate Justified(ok: Check -> bool, reports: seq<Report>) {
    forall i | 0 <= i < |reports| :: (reports[i].result <==> forall c | c in reports[i].checks :: ok(c))
  }

  /** In every interleaving the counters stay exact, no check is lost, and every wait
      returns exactly the conjunction of the checks added since the previous one. */
  ghost function Run(ok: Check -> bool, s: State, steps: seq<Step>, batchSize: nat): (r: (State, seq<Report>))
    requires Valid(ok, s)
    ensures Valid(ok, r.0) && Justified(ok, r.1)
    decreases |steps|
  {
    hide Valid, Apply, Enabled;
    if steps == [] || !Enabled(s, steps[0]) then (s, [])
    else
      ApplyKeeps(ok, s, steps[0], batchSize);
      var n := Apply(ok, s, steps[0], batchSize);
      var (u, reports) := Run(ok, n.s, steps[1..], batchSize);
      (u, (if n.returned then [Report(n.result, s.added)] else []) + reports)
  }

  // Progress

  predicate Awake(x: Thread) { x.AtLock? || x.Working? || x.Notified? }

  /** While the master waits for the round, some thread can go on without a spurious
      wake-up: there is no lost notification and no deadlock. */
  lemma NoDeadlock(ok: Check -> bool, s: State)
    requires Valid(ok, s) && !s.threads[0].Outside? && !s.threads[0].Holding?
    ensures exists t :: 0 <= t < |s.threads| && Awake(s.threads[t])
    ensures s.threads[0].Waiting? ==> exists t :: 0 < t < |s.threads| && BatchSize(s.threads[t]) > 0
  {
    hide Sum, Batches;
    if s.threads[0].Waiting? {
      SumPositive(BatchSize, s.threads);
      var t :| 0 <= t < |s.threads| && BatchSize(s.threads[t]) > 0;
      assert Awake(s.threads[t]) && t != 0;
    } else {
      assert Awake(s.threads[0]);
    }
  }

  function WeightOf(x: Thread): nat {
    match x
    case Working(b, _) => 4 * |b|
    case AtLock(b, _) => if b == [] then 1 else 2 * |b|
    case Notified => 1
    case _ => 0
  }

  function Weight(s: State): nat { 6 * |s.queue| + Sum(WeightOf, s.threads) }

  lemma ProceedLighter(s: State, t: nat, batchSize: nat)
    requires t < |s.threads| && s.threads[t].Holding? && s.nTotal >= 0 && s.nIdle >= 0
    ensures Weight(Proceed(s, t, batchSize).s) <= Weight(s)
  {
    hide Sum, HowMany;
    var u := Proceed(s, t, batchSize).s;
    SumUpdate(WeightOf, s.threads, t, u.threads[t]);
  }

  lemma AccountLighter(s: State, t: nat)
    requires t < |s.threads| && s.threads[t].AtLock?
    ensures Weight(Account(s, t)) < Weight(s)
  {
    hide Sum;
    SumUpdate(WeightOf, s.threads, t, Holding);
    var cleared := s.threads[t := Holding];
    if cleared[0].Waiting? { SumUpdate(WeightOf, cleared, 0, Notified); }
  }

  lemma BatchCarried(ok: Check -> bool, s: State, t: nat)
    requires Valid(ok, s) && t < |s.threads| && s.threads[t].Working?
    ensures s.threads[t].batch != []
  {
    assert VerdictOk(ok, s.threads[t], s.added);
  }

  predicate IsSpurious(s: State, step: Step) {
    step.StepWake? && step.t < |s.threads| && s.threads[step.t].Waiting?
  }

  /** Once the master is inside, every step but a spurious wake-up or a thread's first
      entry uses up work, so the wait cannot go on forever. */
  lemma StepLighter(ok: Check -> bool, s: State, step: Step, batchSize: nat)
    requires Valid(ok, s) && Enabled(s, step) && !IsSpurious(s, step) && !step.StepAdd? && !step.StepEnter?
    ensures Weight(Apply(ok, s, step, batchSize).s) < Weight(s)
  {
    hide Valid, Account, Proceed, Sum;
    match step
    case StepWork(t) =>
      BatchCarried(ok, s, t);
      SumUpdate(WeightOf, s.threads, t, Work(ok, s, t).threads[t]);
    case StepLock(t) =>
      LockKeeps(ok, s, t, batchSize);
      AccountKeeps(ok, s, t);
      AccountLighter(s, t);
      ValidCounted(ok, Account(s, t), t);
      ProceedLighter(Account(s, t), t, batchSize);
    case StepWake(t) =>
      WakeKeeps(ok, s, t, batchSize);
      SumUpdate(WeightOf, s.threads, t, Holding);
      ProceedLighter(s.(nIdle := s.nIdle - 1, threads := s.threads[t := Holding]), t, batchSize);
  }
}
