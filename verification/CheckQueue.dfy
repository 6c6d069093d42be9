/** The parallel verification queue: one master, any number of workers, one mutex.

    Every critical section of `Loop`, `Add` and `IsIdle` is one atomic step, and a single
    evaluation of a check outside the mutex is one step too.  Thread 0 is the master.
    Waking up from a condition variable is allowed at any time, so spurious wake-ups are
    part of every run. */
module CheckQueue {
  import opened Options

  /** What a thread is doing while nobody holds the mutex. */
  datatype Thread<T> =
    | Outside                                      // not inside Loop
    | Blocked(notified: bool)                      // inside cond.wait
    | Running(batch: seq<T>, done: nat, ok: bool)  // processing its batch

  datatype Queue<T> = Queue(
    queue: seq<T>,
    nIdle: int,
    nTotal: int,
    allOk: bool,
    nTodo: int,
    quit: bool,
    batchSize: nat,
    threads: seq<Thread<T>>)

  /** `Lock` is one whole critical section of Loop; `ret` is set when Loop returns. */
  datatype Event<T> =
    | Add(checks: seq<T>, woken: set<nat>)
    | Lock(t: nat, ret: Option<bool>)
    | Exec(t: nat)

  function Init<T>(batchSize: nat, workers: nat): Queue<T> {
    Queue([], 0, 0, true, 0, false, batchSize, seq(workers + 1, i => Outside))
  }

  // ----- the operations ---------------------------------------------------------

  predicate IsIdle<T>(q: Queue<T>) {
    q.nTotal == q.nIdle && q.nTodo == 0 && q.allOk
  }

  /** The workers a notify_one / notify_all on condWorker may reach. */
  ghost predicate WakesWorkers<T>(q: Queue<T>, n: nat, woken: set<nat>) {
    var waiting := set t: nat | 1 <= t < |q.threads| && q.threads[t] == Blocked(false);
    if n == 0 then woken == {}
    else if n == 1 then woken <= waiting && (if waiting == {} then woken == {} else |woken| == 1)
    else woken == waiting
  }

  function Notify<T>(threads: seq<Thread<T>>, woken: set<nat>): (r: seq<Thread<T>>)
    ensures |r| == |threads|
  {
    seq(|threads|, t requires 0 <= t < |threads| =>
      if t in woken && threads[t].Blocked? then Blocked(true) else threads[t])
  }

  function DoAdd<T>(q: Queue<T>, checks: seq<T>, woken: set<nat>): Queue<T> {
    q.(queue := q.queue + checks, nTodo := q.nTodo + |checks|, threads := Notify(q.threads, woken))
  }

  /** How many checks to take: never none, never more than there are. */
  function BatchLength<T>(q: Queue<T>): (n: nat)
    requires |q.queue| > 0 && q.nTotal >= 0 && q.nIdle >= 0
    ensures 1 <= n <= |q.queue|
    ensures n == 1 || n <= q.batchSize
  {
    var share := |q.queue| / (q.nTotal + q.nIdle + 1);
    DivShrinks(|q.queue|, q.nTotal + q.nIdle + 1);
    var capped := if q.batchSize < share then q.batchSize else share;
    if capped < 1 then 1 else capped
  }

  /** First part of the critical section: settle the previous batch, register, or un-idle. */
  function Settle<T>(q: Queue<T>, t: nat): Queue<T>
    requires t < |q.threads|
  {
    match q.threads[t]
    case Outside => q.(nTotal := q.nTotal + 1)
    case Blocked(_) => q.(nIdle := q.nIdle - 1)
    case Running(batch, _, ok) =>
      var nTodo := q.nTodo - |batch|;
      var threads := if nTodo == 0 && t != 0 then Notify(q.threads, {0}) else q.threads;
      q.(allOk := q.allOk && ok, nTodo := nTodo, threads := threads)
  }

  /** The loop head: return, wait, or take a batch from the back of the queue. */
  function Proceed<T>(q: Queue<T>, t: nat): (r: (Queue<T>, Option<bool>))
    requires t < |q.threads| && q.nTotal >= 0 && q.nIdle >= 0
  {
    if q.queue == [] then
      if (t == 0 || q.quit) && q.nTodo == 0 then
        (q.(nTotal := q.nTotal - 1, allOk := t == 0 || q.allOk, threads := q.threads[t := Outside]),
         Some(q.allOk))
      else
        (q.(nIdle := q.nIdle + 1, threads := q.threads[t := Blocked(false)]), None)
    else
      var n := BatchLength(q);
      var size := |q.queue|;
      var batch := seq(n, i requires 0 <= i < n => q.queue[size - 1 - i]);
      (q.(queue := q.queue[..size - n], threads := q.threads[t := Running(batch, 0, q.allOk)]), None)
  }

  predicate MayLock<T>(q: Queue<T>, t: nat) {
    && t < |q.threads|
    && (q.threads[t].Running? ==> q.threads[t].done == |q.threads[t].batch|)
  }

  predicate MayExec<T>(q: Queue<T>, t: nat) {
    && t < |q.threads|
    && q.threads[t].Running?
    && q.threads[t].done < |q.threads[t].batch|
  }

  /** The next check of a batch is run, unless an earlier one has failed. */
  function DoExec<T>(q: Queue<T>, t: nat, eval: T -> bool): Queue<T>
    requires MayExec(q, t)
  {
    var Running(batch, done, ok) := q.threads[t];
    q.(threads := q.threads[t := Running(batch, done + 1, ok && eval(batch[done]))])
  }

  ghost predicate Step<T>(q: Queue<T>, e: Event<T>, q': Queue<T>, eval: T -> bool) {
    match e
    case Add(checks, woken) =>
      // only the master adds, and it is then not inside Wait
      && |q.threads| > 0 && q.threads[0].Outside?
      && WakesWorkers(q, |checks|, woken)
      && q' == DoAdd(q, checks, woken)
    case Lock(t, ret) =>
      && MayLock(q, t)
      && var s := Settle(q, t);
      && s.nTotal >= 0 && s.nIdle >= 0
      && (q', ret) == Proceed(s, t)
    case Exec(t) =>
      && MayExec(q, t)
      && q' == DoExec(q, t, eval)
  }

  ghost predicate IsRun<T>(qs: seq<Queue<T>>, es: seq<Event<T>>, eval: T -> bool) {
    && |qs| == |es| + 1
    && |qs[0].threads| > 0
    && qs[0] == Init(qs[0].batchSize, |qs[0].threads| - 1)
    && forall i :: 0 <= i < |es| ==> Step(qs[i], es[i], qs[i + 1], eval)
  }

  /** All checks added after the most recent return of Wait. */
  function AddedSinceWait<T>(es: seq<Event<T>>): seq<T> {
    if es == [] then []
    else
      var rest := AddedSinceWait(es[..|es| - 1]);
      match es[|es| - 1]
      case Add(checks, _) => rest + checks
      case Lock(t, ret) => if t == 0 && ret.Some? then [] else rest
      case Exec(_) => rest
  }

  predicate AllTrue<T>(checks: seq<T>, eval: T -> bool) {
    forall i :: 0 <= i < |checks| ==> eval(checks[i])
  }

  // ----- counting ---------------------------------------------------------------

  function Sum<T>(threads: seq<Thread<T>>, weight: Thread<T> -> int): int {
    if threads == [] then 0 else Sum(threads[..|threads| - 1], weight) + weight(threads[|threads| - 1])
  }

  function Inside<T>(t: Thread<T>): int { if t.Outside? then 0 else 1 }
  function Idle<T>(t: Thread<T>): int { if t.Blocked? then 1 else 0 }
  function Holding<T>(t: Thread<T>): int { if t.Running? then 1 else 0 }
  function InFlight<T>(t: Thread<T>): int { if t.Running? then |t.batch| else 0 }

  lemma {:induction false} SumUpdate<T>(threads: seq<Thread<T>>, i: nat, x: Thread<T>, weight: Thread<T> -> int)
    requires i < |threads|
    ensures Sum(threads[i := x], weight) == Sum(threads, weight) - weight(threads[i]) + weight(x)
  {
    var last := |threads| - 1;
    var updated := threads[i := x];
    if i == last {
      assert updated[..last] == threads[..last];
    } else {
      assert updated[..last] == threads[..last][i := x];
      SumUpdate(threads[..last], i, x, weight);
    }
  }

  lemma {:induction false} SumSame<T>(a: seq<Thread<T>>, b: seq<Thread<T>>, weight: Thread<T> -> int)
    requires |a| == |b|
    requires forall i :: 0 <= i < |a| ==> weight(a[i]) == weight(b[i])
    ensures Sum(a, weight) == Sum(b, weight)
  {
    if a != [] {
      SumSame(a[..|a| - 1], b[..|b| - 1], weight);
    }
  }

  lemma {:induction false} SumNonNegative<T>(threads: seq<Thread<T>>, weight: Thread<T> -> int)
    requires forall i :: 0 <= i < |threads| ==> weight(threads[i]) >= 0
    ensures Sum(threads, weight) >= 0
    ensures forall i :: 0 <= i < |threads| ==> weight(threads[i]) <= Sum(threads, weight)
  {
    if threads != [] {
      SumNonNegative(threads[..|threads| - 1], weight);
    }
  }

  /** A sum of non-negative weights is positive only if some weight is. */
  lemma {:induction false} SumWitness<T>(threads: seq<Thread<T>>, weight: Thread<T> -> int) returns (t: nat)
    requires Sum(threads, weight) > 0
    ensures t < |threads| && weight(threads[t]) > 0
  {
    var last := |threads| - 1;
    if weight(threads[last]) > 0 {
      t := last;
    } else {
      t := SumWitness(threads[..last], weight);
    }
  }

  lemma {:induction false} InsideSplits<T>(threads: seq<Thread<T>>)
    ensures Sum(threads, Inside) == Sum(threads, Idle) + Sum(threads, Holding)
  {
    if threads != [] {
      InsideSplits(threads[..|threads| - 1]);
    }
  }

  lemma DivShrinks(a: nat, b: int)
    requires b >= 1
    ensures 0 <= a / b <= a
  {
    var q := a / b;
    assert a == b * q + a % b;
    MulAtLeast(b, q);
  }

  lemma {:induction false} MulAtLeast(b: int, q: int)
    requires b >= 1
    ensures q >= 0 ==> b * q >= q
    ensures q < 0 ==> b * q <= -b
  {
    if q >= 0 {
      assert (b - 1) * q >= 0;
    } else {
      assert b * (-1 - q) >= 0;
    }
  }

  // ----- the invariant ----------------------------------------------------------

  /** The counters are exact, and a blocked master has a reason to be woken later. */
  ghost predicate Inv<T>(q: Queue<T>) {
    && |q.threads| > 0
    && (forall t :: 0 <= t < |q.threads| && q.threads[t].Running? ==>
          0 < |q.threads[t].batch| && q.threads[t].done <= |q.threads[t].batch|)
    && q.nTotal == Sum(q.threads, Inside)
    && q.nIdle == Sum(q.threads, Idle)
    && q.nTodo == |q.queue| + Sum(q.threads, InFlight)
    && !q.quit
    && (q.threads[0].Blocked? ==> q.queue == [])
    && (q.threads[0] == Blocked(false) ==> q.nTodo > 0)
  }

  /** The verdict on all pending checks is spread over the flag, the queue and the batches. */
  ghost predicate Verdict<T>(q: Queue<T>, pending: seq<T>, eval: T -> bool) {
    && q.nTodo <= |pending|
    && (AllTrue(pending, eval) <==>
          && q.allOk
          && AllTrue(q.queue, eval)
          && forall t :: 0 <= t < |q.threads| && q.threads[t].Running? ==> Hopeful(q.threads[t], eval))
  }

  ghost predicate Hopeful<T>(t: Thread<T>, eval: T -> bool)
    requires t.Running?
  {
    t.ok && forall i :: t.done <= i < |t.batch| ==> eval(t.batch[i])
  }

  lemma InitInv<T>(batchSize: nat, workers: nat, eval: T -> bool)
    ensures Inv(Init<T>(batchSize, workers)) && Verdict(Init<T>(batchSize, workers), [], eval)
  {
    var q := Init<T>(batchSize, workers);
    SumZero(q.threads, Inside);
    SumZero(q.threads, Idle);
    SumZero(q.threads, InFlight);
  }

  lemma {:induction false} SumZero<T>(threads: seq<Thread<T>>, weight: Thread<T> -> int)
    requires forall i :: 0 <= i < |threads| ==> weight(threads[i]) == 0
    ensures Sum(threads, weight) == 0
  {
    if threads != [] {
      SumZero(threads[..|threads| - 1], weight);
    }
  }

  lemma CountersNonNegative<T>(q: Queue<T>)
    requires Inv(q)
    ensures q.nTotal >= 0 && q.nIdle >= 0 && q.nTodo >= |q.queue|
    ensures forall t :: 0 <= t < |q.threads| ==>
              Inside(q.threads[t]) <= q.nTotal && Idle(q.threads[t]) <= q.nIdle && |q.queue| + InFlight(q.threads[t]) <= q.nTodo
  {
    SumNonNegative(q.threads, Inside);
    SumNonNegative(q.threads, Idle);
    SumNonNegative(q.threads, InFlight);
  }

  // ----- one step keeps the invariant ------------------------------------------

  /** The state in the middle of t's critical section, t itself set aside. */
  ghost predicate Detached<T>(q: Queue<T>, t: nat) {
    && t < |q.threads| && q.threads[t].Outside?
    && (forall u :: 0 <= u < |q.threads| && q.threads[u].Running? ==>
          0 < |q.threads[u].batch| && q.threads[u].done <= |q.threads[u].batch|)
    && q.nTotal == Sum(q.threads, Inside) + 1
    && q.nIdle == Sum(q.threads, Idle)
    && q.nTodo == |q.queue| + Sum(q.threads, InFlight)
    && !q.quit
    && (q.threads[0].Blocked? ==> q.queue == [])
    && (q.threads[0] == Blocked(false) ==> q.nTodo > 0)
  }

  function Detach<T>(q: Queue<T>, t: nat): Queue<T>
    requires t < |q.threads|
  {
    var s := Settle(q, t);
    s.(threads := s.threads[t := Outside])
  }

  lemma NotifyCounts<T>(threads: seq<Thread<T>>, woken: set<nat>)
    ensures Sum(Notify(threads, woken), Inside) == Sum(threads, Inside)
    ensures Sum(Notify(threads, woken), Idle) == Sum(threads, Idle)
    ensures Sum(Notify(threads, woken), InFlight) == Sum(threads, InFlight)
  {
    SumSame(Notify(threads, woken), threads, Inside);
    SumSame(Notify(threads, woken), threads, Idle);
    SumSame(Notify(threads, woken), threads, InFlight);
  }

  lemma UpdateCounts<T>(threads: seq<Thread<T>>, t: nat, x: Thread<T>)
    requires t < |threads|
    ensures Sum(threads[t := x], Inside) == Sum(threads, Inside) - Inside(threads[t]) + Inside(x)
    ensures Sum(threads[t := x], Idle) == Sum(threads, Idle) - Idle(threads[t]) + Idle(x)
    ensures Sum(threads[t := x], InFlight) == Sum(threads, InFlight) - InFlight(threads[t]) + InFlight(x)
  {
    SumUpdate(threads, t, x, Inside);
    SumUpdate(threads, t, x, Idle);
    SumUpdate(threads, t, x, InFlight);
  }

  /** Settling changes no thread except that it may notify a blocked master. */
  lemma SettleCounts<T>(q: Queue<T>, t: nat)
    requires t < |q.threads|
    ensures var s := Settle(q, t);
      && |s.threads| == |q.threads|
      && s.threads[t] == q.threads[t]
      && (forall u :: 0 < u < |q.threads| ==> s.threads[u] == q.threads[u])
      && Sum(s.threads, Inside) == Sum(q.threads, Inside)
      && Sum(s.threads, Idle) == Sum(q.threads, Idle)
      && Sum(s.threads, InFlight) == Sum(q.threads, InFlight)
  {
    NotifyCounts(q.threads, {0});
  }

  lemma DetachInv<T>(q: Queue<T>, t: nat)
    requires Inv(q) && MayLock(q, t)
    ensures Detached(Detach(q, t), t)
  {
    var s := Settle(q, t);
    SettleCounts(q, t);
    CountersNonNegative(q);
    UpdateCounts(s.threads, t, Outside);
    forall u | 0 <= u < |q.threads| ensures s.threads[u].Running? ==> s.threads[u] == q.threads[u] { }
  }

  lemma DetachVerdict<T>(q: Queue<T>, t: nat, pending: seq<T>, eval: T -> bool)
    requires Inv(q) && MayLock(q, t) && Verdict(q, pending, eval)
    ensures Verdict(Detach(q, t), pending, eval)
  {
    var d := Detach(q, t);
    forall u | 0 <= u < |q.threads| && u != t
      ensures d.threads[u].Running? == q.threads[u].Running?
      ensures q.threads[u].Running? ==> d.threads[u] == q.threads[u]
    {
    }
    if q.threads[t].Running? {
      assert Hopeful(q.threads[t], eval) == q.threads[t].ok;
    }
  }

  lemma ProceedIgnoresSelf<T>(q: Queue<T>, t: nat)
    requires t < |q.threads| && q.nTotal >= 0 && q.nIdle >= 0
    ensures Proceed(q.(threads := q.threads[t := Outside]), t) == Proceed(q, t)
  {
    var x := Proceed(q, t).0.threads[t];
    assert q.threads[t := Outside][t := x] == q.threads[t := x];
  }

  lemma ProceedInv<T>(q: Queue<T>, t: nat)
    requires Detached(q, t)
    ensures q.nTotal >= 0 && q.nIdle >= 0
    ensures Inv(Proceed(q, t).0)
  {
    SumNonNegative(q.threads, Inside);
    SumNonNegative(q.threads, Idle);
    SumNonNegative(q.threads, InFlight);
    var r := Proceed(q, t).0;
    UpdateCounts(q.threads, t, r.threads[t]);
  }

  /** A batch and what is left of the queue are together the old queue. */
  lemma TakenSplitsQueue<T>(queue: seq<T>, n: nat, batch: seq<T>, eval: T -> bool)
    requires n <= |queue| && |batch| == n
    requires forall i :: 0 <= i < n ==> batch[i] == queue[|queue| - 1 - i]
    ensures AllTrue(queue, eval) <==> AllTrue(queue[..|queue| - n], eval) && AllTrue(batch, eval)
  {
    var rest := queue[..|queue| - n];
    if AllTrue(rest, eval) && AllTrue(batch, eval) {
      forall i | 0 <= i < |queue| ensures eval(queue[i]) {
        if i < |rest| { assert rest[i] == queue[i]; } else { assert batch[|queue| - 1 - i] == queue[i]; }
      }
    }
  }

  lemma ProceedVerdict<T>(q: Queue<T>, t: nat, pending: seq<T>, eval: T -> bool)
    requires Detached(q, t) && Verdict(q, pending, eval)
    requires q.nTotal >= 0 && q.nIdle >= 0
    ensures var (r, ret) := Proceed(q, t);
      if ret.Some? then
        t == 0 && ret.value == AllTrue(pending, eval) && Verdict(r, [], eval)
      else
        Verdict(r, pending, eval)
  {
    SumNonNegative(q.threads, InFlight);
    var (r, ret) := Proceed(q, t);
    forall u | 0 <= u < |q.threads| && u != t ensures r.threads[u] == q.threads[u] { }
    if q.queue != [] {
      var batch := r.threads[t].batch;
      TakenSplitsQueue(q.queue, |batch|, batch, eval);
      assert Hopeful(r.threads[t], eval) <==> q.allOk && AllTrue(batch, eval);
    } else if ret.Some? {
      forall u | 0 <= u < |q.threads| ensures !q.threads[u].Running? {
        assert InFlight(q.threads[u]) <= 0;
      }
    }
  }

  lemma LockStep<T>(q: Queue<T>, t: nat, ret: Option<bool>, q': Queue<T>, pending: seq<T>, eval: T -> bool)
    requires Inv(q) && Verdict(q, pending, eval) && Step(q, Lock(t, ret), q', eval)
    ensures Inv(q')
    ensures ret.Some? ==> t == 0 && ret.value == AllTrue(pending, eval) && Verdict(q', [], eval)
    ensures ret.None? ==> Verdict(q', pending, eval)
  {
    DetachInv(q, t);
    DetachVerdict(q, t, pending, eval);
    ProceedIgnoresSelf(Settle(q, t), t);
    ProceedInv(Detach(q, t), t);
    ProceedVerdict(Detach(q, t), t, pending, eval);
  }

  lemma AddStep<T>(q: Queue<T>, checks: seq<T>, woken: set<nat>, pending: seq<T>, eval: T -> bool)
    requires Inv(q) && Verdict(q, pending, eval) && q.threads[0].Outside?
    ensures Inv(DoAdd(q, checks, woken)) && Verdict(DoAdd(q, checks, woken), pending + checks, eval)
  {
    var q' := DoAdd(q, checks, woken);
    NotifyCounts(q.threads, woken);
    AllTrueConcat(q.queue, checks, eval);
    AllTrueConcat(pending, checks, eval);
    forall u | 0 <= u < |q.threads|
      ensures q'.threads[u].Running? == q.threads[u].Running?
      ensures q.threads[u].Running? ==> q'.threads[u] == q.threads[u]
    {
    }
  }

  lemma AllTrueConcat<T>(a: seq<T>, b: seq<T>, eval: T -> bool)
    ensures AllTrue(a + b, eval) <==> AllTrue(a, eval) && AllTrue(b, eval)
  {
    if AllTrue(a + b, eval) {
      assert forall i :: 0 <= i < |a| ==> a[i] == (a + b)[i];
      assert forall i :: 0 <= i < |b| ==> b[i] == (a + b)[|a| + i];
    }
  }

  lemma ExecStep<T>(q: Queue<T>, t: nat, pending: seq<T>, eval: T -> bool)
    requires Inv(q) && Verdict(q, pending, eval) && MayExec(q, t)
    ensures Inv(DoExec(q, t, eval)) && Verdict(DoExec(q, t, eval), pending, eval)
  {
    var q' := DoExec(q, t, eval);
    UpdateCounts(q.threads, t, q'.threads[t]);
    forall u | 0 <= u < |q.threads| && u != t ensures q'.threads[u] == q.threads[u] { }
    assert Hopeful(q'.threads[t], eval) == Hopeful(q.threads[t], eval);
  }

  // ----- whole runs -------------------------------------------------------------

  /** Every reachable state satisfies the invariant for the checks added since the last Wait. */
  lemma {:induction false} RunInv<T>(qs: seq<Queue<T>>, es: seq<Event<T>>, eval: T -> bool)
    requires IsRun(qs, es, eval)
    ensures Inv(qs[|es|]) && Verdict(qs[|es|], AddedSinceWait(es), eval)
    decreases |es|
  {
    if es == [] {
      InitInv(qs[0].batchSize, |qs[0].threads| - 1, eval);
    } else {
      var n := |es| - 1;
      RunInv(qs[..|es|], es[..n], eval);
      var q, q', pending := qs[n], qs[n + 1], AddedSinceWait(es[..n]);
      assert Step(q, es[n], q', eval);
      match es[n]
      case Add(checks, woken) => AddStep(q, checks, woken, pending, eval);
      case Lock(t, ret) => LockStep(q, t, ret, q', pending, eval);
      case Exec(t) => ExecStep(q, t, pending, eval);
    }
  }

  lemma RunPrefix<T>(qs: seq<Queue<T>>, es: seq<Event<T>>, eval: T -> bool, k: nat)
    requires IsRun(qs, es, eval) && k <= |es|
    ensures IsRun(qs[..k + 1], es[..k], eval)
  {
  }

  /** Wait is exact: in every interleaving it returns true iff every check added since the
      previous Wait evaluates to true; no worker ever leaves Loop. */
  lemma WaitReturnsConjunction<T>(qs: seq<Queue<T>>, es: seq<Event<T>>, eval: T -> bool, k: nat)
    requires IsRun(qs, es, eval) && k < |es| && es[k].Lock? && es[k].ret.Some?
    ensures es[k].t == 0
    ensures es[k].ret.value <==> AllTrue(AddedSinceWait(es[..k]), eval)
    ensures IsIdle(qs[k + 1])
  {
    RunPrefix(qs, es, eval, k);
    RunInv(qs[..k + 1], es[..k], eval);
    assert Step(qs[k], es[k], qs[k + 1], eval);
    LockStep(qs[k], es[k].t, es[k].ret, qs[k + 1], AddedSinceWait(es[..k]), eval);
    IdleWhenNothingPending(qs[k + 1], eval);
  }

  lemma IdleWhenNothingPending<T>(q: Queue<T>, eval: T -> bool)
    requires Inv(q) && Verdict(q, [], eval)
    ensures IsIdle(q)
  {
    CountersNonNegative(q);
    InsideSplits(q.threads);
    forall t | 0 <= t < |q.threads| ensures Holding(q.threads[t]) == 0 {
      assert InFlight(q.threads[t]) <= 0;
    }
    SumZero(q.threads, Holding);
  }

  /** The assert of the next controller holds in every state reached with nothing added
      since the last Wait, whatever the workers did in between. */
  lemma ControllerFindsIdleQueue<T>(qs: seq<Queue<T>>, es: seq<Event<T>>, eval: T -> bool)
    requires IsRun(qs, es, eval) && AddedSinceWait(es) == []
    ensures IsIdle(qs[|es|])
  {
    RunInv(qs, es, eval);
    IdleWhenNothingPending(qs[|es|], eval);
  }

  /** Whenever the mutex is free the counters are exact. */
  lemma CountersExact<T>(qs: seq<Queue<T>>, es: seq<Event<T>>, eval: T -> bool)
    requires IsRun(qs, es, eval)
    ensures var q := qs[|es|];
      && q.nTodo == |q.queue| + Sum(q.threads, InFlight)
      && q.nTotal - q.nIdle == Sum(q.threads, Holding)
  {
    RunInv(qs, es, eval);
    InsideSplits(qs[|es|].threads);
  }

  /** A blocked master that nobody has notified always has a worker still in flight. */
  lemma BlockedMasterHasWorker<T>(qs: seq<Queue<T>>, es: seq<Event<T>>, eval: T -> bool) returns (t: nat)
    requires IsRun(qs, es, eval) && |qs[|es|].threads| > 0 && qs[|es|].threads[0] == Blocked(false)
    ensures 0 < t < |qs[|es|].threads| && qs[|es|].threads[t].Running?
  {
    RunInv(qs, es, eval);
    t := SumWitness(qs[|es|].threads, InFlight);
  }

  // ----- Wait terminates --------------------------------------------------------

  /** Bounds the steps left before Wait returns, spurious wake-ups aside. */
  function Cost<T>(t: Thread<T>): int {
    match t
    case Outside => 1
    case Blocked(notified) => if notified then 1 else 0
    case Running(batch, done, _) => 2 + |batch| - done
  }

  function Work<T>(q: Queue<T>): int { 4 * |q.queue| + Sum(q.threads, Cost) }

  lemma WorkNonNegative<T>(q: Queue<T>)
    requires Inv(q)
    ensures Work(q) >= 0
  {
    SumNonNegative(q.threads, Cost);
  }

  /** While the master is inside Wait, every step that is not a futile wake-up either
      lets Wait return or uses up work. */
  lemma StepUsesWork<T>(q: Queue<T>, e: Event<T>, q': Queue<T>, eval: T -> bool)
    requires Inv(q) && !q.threads[0].Outside? && Step(q, e, q', eval) && q != q'
    ensures (e.Lock? && e.ret.Some?) || Work(q') < Work(q)
  {
    match e
    case Add(_, _) =>
    case Exec(t) => SumUpdate(q.threads, t, q'.threads[t], Cost);
    case Lock(t, ret) =>
      var s := Settle(q, t);
      SettleCost(q, t);
      SumUpdate(s.threads, t, q'.threads[t], Cost);
      if q.threads[t] == Blocked(false) {
        assert q.threads[t := Blocked(false)] == q.threads;
      }
  }

  /** Waking the master costs one unit. */
  lemma SettleCost<T>(q: Queue<T>, t: nat)
    requires t < |q.threads|
    ensures var s := Settle(q, t);
      && |s.threads| == |q.threads| && s.threads[t] == q.threads[t]
      && Sum(s.threads, Cost) <= Sum(q.threads, Cost) + if q.threads[t].Running? then 1 else 0
  {
    var s := Settle(q, t);
    assert s.threads == q.threads[0 := s.threads[0]];
    SumUpdate(q.threads, 0, s.threads[0], Cost);
  }

  /** While the master is inside Wait the queue is never stuck: some thread that is not blocked
      without a notification can take a step that changes the state, so that nothing depends on a
      spurious wake-up. */
  lemma WaitIsNeverStuck<T>(q: Queue<T>, eval: T -> bool) returns (e: Event<T>, q': Queue<T>)
    requires Inv(q) && !q.threads[0].Outside?
    ensures Step(q, e, q', eval) && q' != q
    ensures !e.Add? && q.threads[e.t] != Blocked(false)
  {
    var t: nat := 0;
    if q.threads[0] == Blocked(false) {
      t := SumWitness(q.threads, InFlight);
    }
    if MayExec(q, t) {
      e, q' := Exec(t), DoExec(q, t, eval);
      assert q'.threads[t] != q.threads[t];
    } else {
      DetachInv(q, t);
      ProceedInv(Detach(q, t), t);
      var r := Proceed(Settle(q, t), t);
      e, q' := Lock(t, r.1), r.0;
      assert q'.threads[t] != q.threads[t];
    }
  }

  lemma InvStep<T>(q: Queue<T>, e: Event<T>, q': Queue<T>, eval: T -> bool)
    requires Inv(q) && Step(q, e, q', eval)
    ensures Inv(q')
  {
    match e
    case Add(_, woken) => NotifyCounts(q.threads, woken);
    case Exec(t) => UpdateCounts(q.threads, t, q'.threads[t]);
    case Lock(t, _) =>
      DetachInv(q, t);
      ProceedIgnoresSelf(Settle(q, t), t);
      ProceedInv(Detach(q, t), t);
  }

  /** Wait terminates: while the master is inside, no interleaving is longer than the
      work present when it entered, spurious wake-ups that change nothing aside. */
  lemma {:induction false} WaitTerminates<T>(qs: seq<Queue<T>>, es: seq<Event<T>>, eval: T -> bool)
    requires |qs| == |es| + 1 && Inv(qs[0])
    requires forall i :: 0 <= i < |es| ==> Step(qs[i], es[i], qs[i + 1], eval) && qs[i] != qs[i + 1]
    requires forall i :: 0 <= i < |es| ==> |qs[i].threads| > 0 && !qs[i].threads[0].Outside?
    requires forall i :: 0 <= i < |es| && es[i].Lock? ==> es[i].ret.None?
    ensures |es| <= Work(qs[0])
    decreases |es|
  {
    WorkNonNegative(qs[0]);
    if es != [] {
      assert Step(qs[0], es[0], qs[1], eval) && qs[0] != qs[1];
      InvStep(qs[0], es[0], qs[1], eval);
      StepUsesWork(qs[0], es[0], qs[1], eval);
      WaitTerminates(qs[1..], es[1..], eval);
    }
  }
}
