/** The script-check queue: one master and any number of workers share a stack of checks
    under one mutex. Every critical section is one atomic step; a run is any interleaving
    of steps, with spurious wake-ups. Thread 0 is the master. The shutdown flag, which
    nothing in the source sets, is left out. (src/checkqueue.h) */
module CheckQueue {
  import opened Basics

  /** What a thread is doing whenever the mutex is free. A check is represented by the
      result it gives when it is run. */
  datatype Thread =
    | Outside                                     // not in Loop
    | Idle(notified: bool)                        // in a condition wait
    | Busy(batch: seq<bool>, startOk: bool)       // holding a batch; startOk is fAllOk when it was taken

  datatype Queue = Queue(
    queue: seq<bool>,                             // used as a stack
    nIdle: int,
    nTotal: int,
    allOk: bool,
    nTodo: int,
    batchSize: nat,
    threads: seq<Thread>,
    added: seq<bool>                              // history: checks added since the last Wait returned
  )

  // ---------- the steps ----------

  function Max(a: int, b: int): int { if a > b then a else b }

  function BatchCount(q: Queue): (n: int)
    requires q.nTotal + q.nIdle >= 0 && q.queue != []
    ensures 1 <= n <= |q.queue|
  {
    Max(1, Min(q.batchSize, |q.queue| / (q.nTotal + q.nIdle + 1)))
  }

  predicate AllTrue(s: seq<bool>) {
    forall i :: 0 <= i < |s| ==> s[i]
  }

  /** The rest of the critical section, once thread t has done its clean-up or has woken:
      take a batch, or leave with a result, or go to wait. */
  function Proceed(q: Queue, t: nat): Queue
    requires t < |q.threads| && q.nTotal + q.nIdle >= 0
  {
    if q.queue == [] then
      if t == 0 && q.nTodo == 0 then
        q.(nTotal := q.nTotal - 1, allOk := true, threads := q.threads[t := Outside], added := [])
      else
        q.(nIdle := q.nIdle + 1, threads := q.threads[t := Idle(false)])
    else
      var n := BatchCount(q);
      q.(queue := q.queue[..|q.queue| - n], threads := q.threads[t := Busy(Popped(q.queue, n), q.allOk)])
  }

  /** The n topmost checks of the stack, in the order they are popped. */
  function Popped(queue: seq<bool>, n: nat): (batch: seq<bool>)
    requires n <= |queue|
    ensures |batch| == n && forall i :: 0 <= i < n ==> batch[i] == queue[|queue| - 1 - i]
  {
    if n == 0 then [] else Popped(queue, n - 1) + [queue[|queue| - n]]
  }

  /** The loop that moves a batch out of the queue. */
  method TakeBatch(queue: seq<bool>, n: nat) returns (rest: seq<bool>, batch: seq<bool>)
    requires n <= |queue|
    ensures rest == queue[..|queue| - n] && batch == Popped(queue, n)
  {
    rest, batch := queue, [];
    for i := 0 to n
      invariant rest == queue[..|queue| - i] && batch == Popped(queue, i)
    {
      batch := batch + [rest[|rest| - 1]];
      rest := rest[..|rest| - 1];
    }
  }

  /** The loop that runs a batch: checks after the first failure are skipped. */
  method Execute(batch: seq<bool>, startOk: bool) returns (ok: bool)
    ensures ok == (startOk && AllTrue(batch))
  {
    ok := startOk;
    for i := 0 to |batch|
      invariant ok == (startOk && forall j :: 0 <= j < i ==> batch[j])
    {
      if ok {
        ok := batch[i];
      }
    }
  }

  /** Whether Proceed makes Wait return; the result is then the flag allOk. */
  predicate Returns(q: Queue, t: nat) {
    q.queue == [] && t == 0 && q.nTodo == 0
  }

  /** Thread t starts Loop. */
  function Enter(q: Queue, t: nat): Queue
    requires t < |q.threads|
  {
    q.(nTotal := q.nTotal + 1)
  }

  /** Thread t comes back from its condition wait. */
  function Wake(q: Queue, t: nat): Queue
    requires t < |q.threads|
  {
    q.(nIdle := q.nIdle - 1, threads := q.threads[t := Outside])
  }

  /** Thread t has run its batch and records the outcome. */
  function Finish(q: Queue, t: nat): Queue
    requires t < |q.threads| && q.threads[t].Busy?
  {
    var b := q.threads[t];
    var done := q.(allOk := q.allOk && b.startOk && AllTrue(b.batch), nTodo := q.nTodo - |b.batch|,
                   threads := q.threads[t := Outside]);
    if done.nTodo == 0 && t != 0 then done.(threads := NotifyMaster(done.threads)) else done
  }

  function NotifyMaster(threads: seq<Thread>): (r: seq<Thread>)
    ensures |r| == |threads|
  {
    if |threads| > 0 && threads[0].Idle? then threads[0 := Idle(true)] else threads
  }

  /** The master adds checks, waking one waiting worker or all of them. */
  function Add(q: Queue, checks: seq<bool>, woken: nat): Queue {
    var more := q.(queue := q.queue + checks, nTodo := q.nTodo + |checks|, added := q.added + checks);
    if |checks| == 1 then more.(threads := NotifyWorker(q.threads, woken))
    else if |checks| > 1 then more.(threads := NotifyWorkers(q.threads, |q.threads|))
    else more
  }

  function NotifyWorker(threads: seq<Thread>, t: nat): (r: seq<Thread>)
    ensures |r| == |threads|
  {
    if 0 < t < |threads| && threads[t].Idle? then threads[t := Idle(true)] else threads
  }

  /** Notifies the waiting workers among the first k threads. */
  function NotifyWorkers(threads: seq<Thread>, k: nat): (r: seq<Thread>)
    requires k <= |threads|
    ensures |r| == |threads|
  {
    if k == 0 then threads else NotifyWorker(NotifyWorkers(threads, k - 1), k - 1)
  }

  datatype Event =
    | AddEvent(checks: seq<bool>, woken: nat)
    | EnterEvent(t: nat)
    | WakeEvent(t: nat)
    | FinishEvent(t: nat)

  /** Only the master adds, and only outside Wait; a thread wakes only while it waits and
      finishes only a batch it holds. */
  predicate Enabled(q: Queue, e: Event) {
    match e
    case AddEvent(checks, woken) => |q.threads| > 0 && q.threads[0].Outside?
    case EnterEvent(t) => t < |q.threads| && q.threads[t].Outside?
    case WakeEvent(t) => t < |q.threads| && q.threads[t].Idle?
    case FinishEvent(t) => t < |q.threads| && q.threads[t].Busy?
  }

  /** The state in the middle of the critical section, before Proceed. */
  function Middle(q: Queue, e: Event): Queue
    requires Enabled(q, e)
  {
    match e
    case AddEvent(checks, woken) => Add(q, checks, woken)
    case EnterEvent(t) => Enter(q, t)
    case WakeEvent(t) => Wake(q, t)
    case FinishEvent(t) => Finish(q, t)
  }

  /** The step can be taken and its batch-size division has a positive divisor. */
  predicate Possible(q: Queue, e: Event) {
    Enabled(q, e) && (!e.AddEvent? ==> Middle(q, e).nTotal + Middle(q, e).nIdle >= 0)
  }

  function Next(q: Queue, e: Event): Queue
    requires Possible(q, e)
  {
    if e.AddEvent? then Middle(q, e) else Proceed(Middle(q, e), e.t)
  }

  // ---------- counting over the threads ----------

  function InFlight(threads: seq<Thread>, k: nat): (n: nat)
    requires k <= |threads|
  {
    if k == 0 then 0 else InFlight(threads, k - 1) + if threads[k - 1].Busy? then |threads[k - 1].batch| else 0
  }

  function CountIdle(threads: seq<Thread>, k: nat): (n: nat)
    requires k <= |threads|
  {
    if k == 0 then 0 else CountIdle(threads, k - 1) + if threads[k - 1].Idle? then 1 else 0
  }

  function CountBusy(threads: seq<Thread>, k: nat): (n: nat)
    requires k <= |threads|
  {
    if k == 0 then 0 else CountBusy(threads, k - 1) + if threads[k - 1].Busy? then 1 else 0
  }

  /** Counts change by what happens at the one index that is replaced. */
  lemma {:induction false} CountUpdate(threads: seq<Thread>, k: nat, t: nat, x: Thread)
    requires k <= |threads| && t < |threads|
    ensures var was := if t < k then threads[t] else x;
            && InFlight(threads[t := x], k) == InFlight(threads, k) - (if was.Busy? then |was.batch| else 0) + (if x.Busy? then |x.batch| else 0)
            && CountIdle(threads[t := x], k) == CountIdle(threads, k) - (if was.Idle? then 1 else 0) + (if x.Idle? then 1 else 0)
            && CountBusy(threads[t := x], k) == CountBusy(threads, k) - (if was.Busy? then 1 else 0) + (if x.Busy? then 1 else 0)
  {
    if k > 0 {
      CountUpdate(threads, k - 1, t, x);
    }
  }

  lemma {:induction false} InFlightAtLeast(threads: seq<Thread>, k: nat, t: nat)
    requires t < k <= |threads| && threads[t].Busy?
    ensures InFlight(threads, k) >= |threads[t].batch|
  {
    if t < k - 1 {
      InFlightAtLeast(threads, k - 1, t);
    }
  }

  /** Some thread holds a batch if anything is in flight. */
  lemma {:induction false} SomeBusy(threads: seq<Thread>, k: nat) returns (t: nat)
    requires k <= |threads| && InFlight(threads, k) > 0
    ensures t < k && threads[t].Busy?
  {
    if threads[k - 1].Busy? {
      t := k - 1;
    } else {
      t := SomeBusy(threads, k - 1);
    }
  }

  // ---------- the invariant ----------

  predicate Passes(th: Thread) {
    th.Busy? ==> AllTrue(th.batch)
  }

  predicate BatchesPass(threads: seq<Thread>) {
    forall t :: 0 <= t < |threads| ==> Passes(threads[t])
  }

  predicate OthersPass(threads: seq<Thread>, t: nat) {
    forall i :: 0 <= i < |threads| && i != t ==> Passes(threads[i])
  }

  lemma BatchesUpdate(threads: seq<Thread>, t: nat, x: Thread)
    requires t < |threads|
    ensures BatchesPass(threads) <==> OthersPass(threads, t) && Passes(threads[t])
    ensures BatchesPass(threads[t := x]) <==> OthersPass(threads, t) && Passes(x)
  {
    var r := threads[t := x];
    assert r[t] == x && forall i :: 0 <= i < |threads| && i != t ==> r[i] == threads[i];
    if BatchesPass(r) {
      forall i | 0 <= i < |threads| && i != t ensures Passes(threads[i]) {
        assert Passes(r[i]);
      }
      assert Passes(r[t]);
    }
  }

  /** No batch is empty, and a batch taken after a failure finds the failure recorded. */
  predicate BatchesSound(q: Queue) {
    forall t :: 0 <= t < |q.threads| && q.threads[t].Busy? ==>
      q.threads[t].batch != [] && (!q.threads[t].startOk ==> !q.allOk)
  }

  /** Holds whenever the mutex is free:
      - nTodo counts the checks that are queued or in flight;
      - nIdle counts the waiting threads, and nTotal - nIdle those holding a batch;
      - the verdict so far, together with what is still to be run, is the verdict on
        everything added since the last Wait;
      - a waiting master finds the queue empty, and either something is still to be done,
        or it has been notified. */
  ghost predicate Inv(q: Queue) {
    && |q.threads| > 0
    && q.nTodo == |q.queue| + InFlight(q.threads, |q.threads|)
    && q.nIdle == CountIdle(q.threads, |q.threads|)
    && q.nTotal - q.nIdle == CountBusy(q.threads, |q.threads|)
    && BatchesSound(q)
    && (AllTrue(q.added) <==> q.allOk && AllTrue(q.queue) && BatchesPass(q.threads))
    && (q.threads[0].Idle? ==> q.queue == [] && (q.threads[0].notified || q.nTodo > 0))
  }

  /** Inside the critical section of thread t, which then is neither waiting nor holding a batch. */
  predicate MidInv(q: Queue, t: nat) {
    && t < |q.threads| && q.threads[t].Outside?
    && q.nTodo == |q.queue| + InFlight(q.threads, |q.threads|)
    && q.nIdle == CountIdle(q.threads, |q.threads|)
    && q.nTotal - q.nIdle == CountBusy(q.threads, |q.threads|) + 1
    && BatchesSound(q)
    && (AllTrue(q.added) <==> q.allOk && AllTrue(q.queue) && BatchesPass(q.threads))
    && (q.threads[0].Idle? ==> q.queue == [] && (q.threads[0].notified || q.nTodo > 0))
  }

  /** The first half of every critical section leads from the invariant to the middle state. */
  lemma MiddleKeeps(q: Queue, e: Event)
    requires Inv(q) && Enabled(q, e) && !e.AddEvent?
    ensures MidInv(Middle(q, e), e.t)
  {
    CountUpdate(q.threads, |q.threads|, e.t, Outside);
    BatchesUpdate(q.threads, e.t, Outside);
    if e.FinishEvent? {
      FinishKeeps(q, e.t);
    }
  }

  lemma FinishKeeps(q: Queue, t: nat)
    requires Inv(q) && t < |q.threads| && q.threads[t].Busy?
    ensures MidInv(Finish(q, t), t)
  {
    CountUpdate(q.threads, |q.threads|, t, Outside);
    InFlightAtLeast(q.threads, |q.threads|, t);
    var b := q.threads[t];
    var threads := q.threads[t := Outside];
    BatchesUpdate(q.threads, t, Outside);
    CountUpdate(threads, |threads|, 0, Idle(true));
    BatchesUpdate(threads, 0, Idle(true));
  }

  lemma PoppedAllTrue(queue: seq<bool>, n: nat)
    requires n <= |queue|
    ensures AllTrue(queue) <==> AllTrue(queue[..|queue| - n]) && AllTrue(Popped(queue, n))
  {
    var batch := Popped(queue, n);
    if AllTrue(queue[..|queue| - n]) && AllTrue(batch) {
      forall i | 0 <= i < |queue| ensures queue[i] {
        if i < |queue| - n {
          assert queue[..|queue| - n][i];
        } else {
          assert batch[|queue| - 1 - i];
        }
      }
    }
  }

  /** The second half re-establishes the invariant; if it makes Wait return, the result is
      true exactly if every check added since the last return is. */
  lemma ProceedKeeps(q: Queue, t: nat)
    requires MidInv(q, t)
    ensures Inv(Proceed(q, t))
    ensures Returns(q, t) ==> (q.allOk <==> AllTrue(q.added))
  {
    if q.queue == [] {
      if t == 0 && q.nTodo == 0 {
        NoneBusy(q.threads, |q.threads|);
        assert q.threads[t := Outside] == q.threads;
      } else {
        CountUpdate(q.threads, |q.threads|, t, Idle(false));
        BatchesUpdate(q.threads, t, Idle(false));
      }
    } else {
      var n := BatchCount(q);
      var busy := Busy(Popped(q.queue, n), q.allOk);
      CountUpdate(q.threads, |q.threads|, t, busy);
      PoppedAllTrue(q.queue, n);
      BatchesUpdate(q.threads, t, busy);
    }
  }

  lemma {:induction false} NoneBusy(threads: seq<Thread>, k: nat)
    requires k <= |threads| && InFlight(threads, k) == 0
    requires forall t :: 0 <= t < |threads| && threads[t].Busy? ==> threads[t].batch != []
    ensures forall t :: 0 <= t < k ==> !threads[t].Busy?
    ensures CountBusy(threads, k) == 0
  {
    if k > 0 {
      NoneBusy(threads, k - 1);
    }
  }

  lemma NotifyWorkerKeeps(threads: seq<Thread>, t: nat)
    ensures var r := NotifyWorker(threads, t);
            && InFlight(r, |r|) == InFlight(threads, |threads|) && CountIdle(r, |r|) == CountIdle(threads, |threads|)
            && CountBusy(r, |r|) == CountBusy(threads, |threads|)
            && (|threads| > 0 ==> r[0] == threads[0])
            && (forall i :: 0 <= i < |threads| ==> (r[i].Busy? <==> threads[i].Busy?) && (threads[i].Busy? ==> r[i] == threads[i]))
  {
    if 0 < t < |threads| && threads[t].Idle? {
      CountUpdate(threads, |threads|, t, Idle(true));
    }
  }

  lemma {:induction false} NotifyWorkersKeep(threads: seq<Thread>, k: nat)
    requires k <= |threads|
    ensures var r := NotifyWorkers(threads, k);
            && InFlight(r, |r|) == InFlight(threads, |threads|) && CountIdle(r, |r|) == CountIdle(threads, |threads|)
            && CountBusy(r, |r|) == CountBusy(threads, |threads|)
            && (|threads| > 0 ==> r[0] == threads[0])
            && (forall i :: 0 <= i < |threads| ==> (r[i].Busy? <==> threads[i].Busy?) && (threads[i].Busy? ==> r[i] == threads[i]))
  {
    if k > 0 {
      NotifyWorkersKeep(threads, k - 1);
      NotifyWorkerKeeps(NotifyWorkers(threads, k - 1), k - 1);
    }
  }

  lemma AddKeeps(q: Queue, checks: seq<bool>, woken: nat)
    requires Inv(q) && q.threads[0].Outside?
    ensures Inv(Add(q, checks, woken))
  {
    NotifyWorkerKeeps(q.threads, woken);
    NotifyWorkersKeep(q.threads, |q.threads|);
    var r := Add(q, checks, woken);
    assert BatchesPass(r.threads) <==> BatchesPass(q.threads) by {
      assert forall i :: 0 <= i < |q.threads| ==> (Passes(r.threads[i]) <==> Passes(q.threads[i]));
    }
    ConcatAllTrue(q.queue, checks);
    ConcatAllTrue(q.added, checks);
  }

  lemma ConcatAllTrue(a: seq<bool>, b: seq<bool>)
    ensures AllTrue(a + b) <==> AllTrue(a) && AllTrue(b)
  {
    if AllTrue(a + b) {
      assert forall i :: 0 <= i < |a| ==> (a + b)[i] == a[i];
      assert forall i :: 0 <= i < |b| ==> (a + b)[|a| + i] == b[i];
    }
  }

  /** Every step of every thread keeps the invariant, and whenever a step makes Wait return,
      the result is the conjunction of all checks added since the last return. */
  lemma StepKeeps(q: Queue, e: Event)
    requires Inv(q) && Enabled(q, e)
    ensures Possible(q, e) && Inv(Next(q, e))
    ensures !e.AddEvent? && Returns(Middle(q, e), e.t) ==> (Middle(q, e).allOk <==> AllTrue(q.added))
  {
    if e.AddEvent? {
      AddKeeps(q, e.checks, e.woken);
    } else {
      MiddleKeeps(q, e);
      ProceedKeeps(Middle(q, e), e.t);
    }
  }

  // ---------- whole runs ----------

  function Start(batchSize: nat, threads: nat): Queue
    requires threads > 0
  {
    Queue([], 0, 0, true, 0, batchSize, seq(threads, _ => Outside), [])
  }

  lemma {:induction false} StartCounts(threads: seq<Thread>, k: nat)
    requires k <= |threads| && forall t :: 0 <= t < |threads| ==> threads[t] == Outside
    ensures InFlight(threads, k) == 0 && CountIdle(threads, k) == 0 && CountBusy(threads, k) == 0
  {
    if k > 0 {
      StartCounts(threads, k - 1);
    }
  }

  /** A run: from the start, each state by one enabled step of any thread. */
  ghost predicate IsRun(states: seq<Queue>, events: seq<Event>) {
    && |states| == |events| + 1
    && (exists batchSize: nat, threads: nat :: threads > 0 && states[0] == Start(batchSize, threads))
    && (forall i :: 0 <= i < |events| ==> StepsTo(states[i], events[i], states[i + 1]))
  }

  ghost predicate StepsTo(q: Queue, e: Event, q': Queue) {
    Possible(q, e) && q' == Next(q, e)
  }

  /** The invariant holds at every lock release of every interleaving. */
  lemma {:induction false} RunsKeepInvariant(states: seq<Queue>, events: seq<Event>, i: nat)
    requires IsRun(states, events) && i <= |events|
    ensures Inv(states[i])
  {
    if i == 0 {
      var threads := states[0].threads;
      StartCounts(threads, |threads|);
    } else {
      RunsKeepInvariant(states, events, i - 1);
      assert StepsTo(states[i - 1], events[i - 1], states[i]);
      StepKeeps(states[i - 1], events[i - 1]);
    }
  }

  /** Checks added between events from and to. */
  function AddedBy(events: seq<Event>, from: nat, to: nat): seq<bool>
    requires from <= to <= |events|
  {
    if from == to then [] else
      AddedBy(events, from, to - 1) + if events[to - 1].AddEvent? then events[to - 1].checks else []
  }

  /** Event i makes Wait return. */
  ghost predicate WaitReturns(states: seq<Queue>, events: seq<Event>, i: nat)
    requires |states| == |events| + 1 && i < |events|
  {
    && Enabled(states[i], events[i]) && !events[i].AddEvent? && Returns(Middle(states[i], events[i]), events[i].t)
  }

  ghost function WaitResult(states: seq<Queue>, events: seq<Event>, i: nat): bool
    requires |states| == |events| + 1 && i < |events| && WaitReturns(states, events, i)
  {
    Middle(states[i], events[i]).allOk
  }

  /** Since a return, or the start, the history holds exactly what was added. */
  lemma {:induction false} HistoryIsAdded(states: seq<Queue>, events: seq<Event>, from: nat, to: nat)
    requires IsRun(states, events) && from <= to <= |events| && states[from].added == []
    requires forall i :: from <= i < to ==> !WaitReturns(states, events, i)
    ensures states[to].added == AddedBy(events, from, to)
  {
    hide StepsTo, Returns, Middle, Enabled;
    if from < to {
      HistoryIsAdded(states, events, from, to - 1);
      assert StepsTo(states[to - 1], events[to - 1], states[to]);
      assert !WaitReturns(states, events, to - 1);
      HistoryStep(states[to - 1], events[to - 1], states[to]);
    }
  }

  lemma HistoryStep(q: Queue, e: Event, q': Queue)
    requires StepsTo(q, e, q') && (e.AddEvent? || !(Enabled(q, e) && Returns(Middle(q, e), e.t)))
    ensures q'.added == q.added + if e.AddEvent? then e.checks else []
  {
  }

  /** In every interleaving, Wait returns true if and only if every check added since the
      previous Wait returned (or since the queue was made) is true. */
  lemma WaitIsConjunction(states: seq<Queue>, events: seq<Event>, from: nat, to: nat)
    requires IsRun(states, events) && from <= to < |events|
    requires from == 0 || WaitReturns(states, events, from - 1)
    requires forall i :: from <= i < to ==> !WaitReturns(states, events, i)
    requires WaitReturns(states, events, to)
    ensures WaitResult(states, events, to) <==> AllTrue(AddedBy(events, from, to))
  {
    if from > 0 {
      assert StepsTo(states[from - 1], events[from - 1], states[from]);
    }
    HistoryIsAdded(states, events, from, to);
    RunsKeepInvariant(states, events, to);
    assert StepsTo(states[to], events[to], states[to + 1]);
    StepKeeps(states[to], events[to]);
  }

  /** The assertions of a new controller hold whenever it may be made: from the start of the
      queue, or from the return of a Wait, until the next checks are added, and whatever the
      workers do meanwhile, all threads in the pool are idle, nothing is to be done, and the
      verdict is reset. */
  lemma {:induction false} ControllerMayStart(states: seq<Queue>, events: seq<Event>, from: nat, to: nat)
    requires IsRun(states, events) && from <= to <= |events|
    requires from == 0 || WaitReturns(states, events, from - 1)
    requires forall i :: from <= i < to ==> !events[i].AddEvent?
    ensures var q := states[to]; q.nTotal == q.nIdle && q.nTodo == 0 && q.allOk && q.added == []
  {
    RunsKeepInvariant(states, events, to);
    if from < to {
      ControllerMayStart(states, events, from, to - 1);
      RunsKeepInvariant(states, events, to - 1);
      IdleStep(states[to - 1], events[to - 1], states[to]);
    } else if from > 0 {
      assert StepsTo(states[from - 1], events[from - 1], states[from]);
    }
    NoneBusy(states[to].threads, |states[to].threads|);
  }

  /** With nothing to do, a step of a worker or of the master leaves nothing to do. */
  lemma IdleStep(q: Queue, e: Event, q': Queue)
    requires Inv(q) && StepsTo(q, e, q') && !e.AddEvent? && q.nTodo == 0 && q.allOk && q.added == []
    ensures q'.nTodo == 0 && q'.allOk && q'.added == []
  {
    NoneBusy(q.threads, |q.threads|);
  }

  /** Work left while the master is in Wait: falls with every batch taken or finished. */
  function Remaining(q: Queue): int {
    |q.queue| + q.nTodo
  }

  /** No step of any thread but adding brings more work: what moves the master on is never
      taken back. */
  lemma StepsDoNoHarm(q: Queue, e: Event)
    requires Inv(q) && Enabled(q, e) && !e.AddEvent?
    ensures Possible(q, e) && 0 <= Remaining(Next(q, e)) <= Remaining(q)
  {
    StepKeeps(q, e);
  }

  /** A master in Wait is never stuck: either some thread holds a batch, and finishing it
      brings Remaining down; or the master itself is awake or notified, and its next step
      makes Wait return. */
  lemma MasterMakesProgress(q: Queue) returns (e: Event)
    requires Inv(q) && !q.threads[0].Outside?
    ensures Possible(q, e)
    ensures e.FinishEvent? || (e == WakeEvent(0) && q.threads[0].notified)
    ensures Remaining(Next(q, e)) < Remaining(q) || Returns(Middle(q, e), 0)
    ensures Remaining(q) >= 0
  {
    if q.threads[0].Busy? {
      e := FinishEvent(0);
      StepKeeps(q, e);
    } else if InFlight(q.threads, |q.threads|) > 0 {
      var t := SomeBusy(q.threads, |q.threads|);
      e := FinishEvent(t);
      StepKeeps(q, e);
    } else {
      e := WakeEvent(0);
      StepKeeps(q, e);
    }
  }
}
