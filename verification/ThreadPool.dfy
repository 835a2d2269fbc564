/** rtThreadPool.c as a transition system: one step per region between lock and unlock. */
module ThreadPool {

  type Tid = nat

  /** Created: spawned, not yet through its first lock. Idle: in pthread_cond_timedwait.
      Woken: out of it by a signal, waiting for the lock. Expired: out of it by the timer,
      waiting for the lock to leave. Busy: running submission `task`. */
  datatype Status = Created | Idle | Woken | Expired | Busy(task: nat)

  /** Submissions are numbered. `queue` is taskList; `started` and `done` are history. */
  datatype Pool = Pool(queue: seq<nat>, workers: map<Tid, Status>, threadCount: int, busyThreadCount: int,
                       maxThreadCount: nat, isRunning: bool, submitted: nat, started: nat, done: set<nat>)

  datatype RunCode = RunOk | Pending

  function Start(maxThreadCount: nat): Pool {
    Pool([], map[], 0, 0, maxThreadCount, true, 0, 0, {})
  }

  // -------------------------------------------------------------------- steps

  datatype Event =
    | RunTask(wake: Tid, created: Tid)
    | Begin(w: Tid)
    | Finish(w: Tid)
    | Resume(w: Tid)
    | Spurious(w: Tid)
    | TimeOut(w: Tid)
    | Exit(w: Tid)
    | Stop

  predicate IsIdle(p: Pool, w: Tid) { w in p.workers && p.workers[w] == Idle }

  predicate IsExpired(p: Pool, w: Tid) { w in p.workers && p.workers[w] == Expired }

  ghost predicate SomeIdle(p: Pool) { exists w :: IsIdle(p, w) }

  predicate IsBusy(p: Pool, w: Tid) { w in p.workers && p.workers[w].Busy? }

  /** Busy, or sure to look at the queue before it next waits. */
  predicate IsActive(p: Pool, w: Tid) { w in p.workers && p.workers[w] != Idle && p.workers[w] != Expired }

  /** pthread_cond_signal reaches a waiting thread if there is one, or else one whose wait
      has just timed out: POSIX allows such a thread to use the signal up. A new thread has
      an identifier of its own. */
  ghost predicate Enabled(p: Pool, e: Event) {
    match e
    case RunTask(wake, created) =>
      (SomeIdle(p) ==> IsIdle(p, wake) || IsExpired(p, wake)) && created !in p.workers
    case Begin(w) => w in p.workers && p.workers[w] == Created
    case Finish(w) => IsBusy(p, w)
    case Resume(w) => w in p.workers && p.workers[w] == Woken
    case Spurious(w) => IsIdle(p, w)
    case TimeOut(w) => IsIdle(p, w)
    case Exit(w) => w in p.workers && p.workers[w] == Expired
    case Stop => true
  }

  function With(p: Pool, w: Tid, s: Status): Pool { p.(workers := p.workers[w := s]) }

  /** The top of the worker's loop: take a task, wait, or leave. */
  function LoopTop(p: Pool, w: Tid): Pool {
    if p.isRunning && p.queue != [] then
      With(p, w, Busy(p.queue[0])).(queue := p.queue[1..], busyThreadCount := p.busyThreadCount + 1,
                                    started := p.started + 1)
    else if p.isRunning then With(p, w, Idle)
    else p.(workers := p.workers - {w}, threadCount := p.threadCount - 1)
  }

  function Submit(p: Pool): Pool {
    p.(queue := p.queue + [p.submitted], submitted := p.submitted + 1)
  }

  function Signal(p: Pool, wake: Tid): Pool {
    if IsIdle(p, wake) then With(p, wake, Woken) else p
  }

  function Dispatch(p: Pool, wake: Tid, created: Tid): (Pool, RunCode) {
    var p1 := Submit(p);
    if p1.busyThreadCount < p1.threadCount then (Signal(p1, wake), RunOk)
    else if p1.threadCount < p1.maxThreadCount then (With(p1, created, Created), RunOk)
    else (p1, Pending)
  }

  /** The broadcast in StopAllThread. */
  function WakeAll(workers: map<Tid, Status>): map<Tid, Status> {
    map w | w in workers :: if workers[w] == Idle then Woken else workers[w]
  }

  function Next(p: Pool, e: Event): Pool {
    match e
    case RunTask(wake, created) => Dispatch(p, wake, created).0
    case Begin(w) => LoopTop(p.(threadCount := p.threadCount + 1), w)
    case Finish(w) =>
      if IsBusy(p, w) then
        LoopTop(p.(busyThreadCount := p.busyThreadCount - 1, done := p.done + {p.workers[w].task}), w)
      else p
    case Resume(w) => LoopTop(p, w)
    case Spurious(w) => With(p, w, Woken)
    case TimeOut(w) => With(p, w, Expired)
    case Exit(w) => p.(workers := p.workers - {w}, threadCount := p.threadCount - 1)
    case Stop => p.(isRunning := false, workers := WakeAll(p.workers))
  }

  // ---------------------------------------------------------------- invariant

  ghost function BusyWorkers(workers: map<Tid, Status>): set<Tid> { set w | w in workers && workers[w].Busy? }

  ghost function StartedWorkers(workers: map<Tid, Status>): set<Tid> { set w | w in workers && workers[w] != Created }

  ghost predicate Counts(p: Pool) {
    && p.busyThreadCount == |BusyWorkers(p.workers)|
    && p.threadCount == |StartedWorkers(p.workers)|
  }

  /** A queued task has somebody who will get to it. */
  ghost predicate NoStrandedTask(p: Pool) {
    p.isRunning && p.queue != [] ==> exists w :: IsActive(p, w)
  }

  /** First in, first out: the queue is exactly the submissions not started yet, in order. */
  ghost predicate Fifo(p: Pool) {
    && p.started <= p.submitted && |p.queue| == p.submitted - p.started
    && forall i :: 0 <= i < |p.queue| ==> p.queue[i] == p.started + i
  }

  ghost predicate RunsTask(p: Pool, w: Tid, t: nat) { IsBusy(p, w) && p.workers[w].task == t }

  ghost predicate RunningOrDone(p: Pool, t: nat) { t in p.done || exists w :: RunsTask(p, w, t) }

  /** Started submissions are running on one worker or done, never both. */
  ghost predicate Accounted(p: Pool) {
    && (forall t: nat :: RunningOrDone(p, t) <==> t < p.started)
    && (forall w, t: nat :: RunsTask(p, w, t) ==> t !in p.done)
    && (forall v, w, t: nat :: RunsTask(p, v, t) && RunsTask(p, w, t) ==> v == w)
  }

  ghost predicate Inv(p: Pool) {
    Counts(p) && Fifo(p) && Accounted(p)
  }

  lemma BusyAtMostStarted(p: Pool)
    requires Counts(p)
    ensures 0 <= p.busyThreadCount <= p.threadCount
  {
    SubsetSize(BusyWorkers(p.workers), StartedWorkers(p.workers));
  }

  lemma SubsetSize(a: set<Tid>, b: set<Tid>)
    requires a <= b
    ensures |a| <= |b|
  {
    assert b == a + (b - a);
  }

  function One(b: bool): int { if b then 1 else 0 }

  /** A set that gains or loses at most one element. */
  lemma SizeUpdate(a: set<Tid>, b: set<Tid>, w: Tid)
    requires forall v :: v != w ==> (v in b <==> v in a)
    ensures |b| == |a| + One(w in b) - One(w in a)
  {
    assert b - {w} == a - {w};
    assert |b - {w}| == |b| - One(w in b);
    assert |a - {w}| == |a| - One(w in a);
  }

  /** How the two counts move when one worker's entry changes or goes. */
  lemma CountUpdate(m: map<Tid, Status>, w: Tid, s: Status)
    ensures |BusyWorkers(m[w := s])| == |BusyWorkers(m)| + One(s.Busy?) - One(w in m && m[w].Busy?)
    ensures |StartedWorkers(m[w := s])| == |StartedWorkers(m)| + One(s != Created) - One(w in m && m[w] != Created)
  {
    var n := m[w := s];
    SizeUpdate(BusyWorkers(m), BusyWorkers(n), w);
    SizeUpdate(StartedWorkers(m), StartedWorkers(n), w);
  }

  lemma CountRemove(m: map<Tid, Status>, w: Tid)
    ensures |BusyWorkers(m - {w})| == |BusyWorkers(m)| - One(w in m && m[w].Busy?)
    ensures |StartedWorkers(m - {w})| == |StartedWorkers(m)| - One(w in m && m[w] != Created)
  {
    var n := m - {w};
    SizeUpdate(BusyWorkers(m), BusyWorkers(n), w);
    SizeUpdate(StartedWorkers(m), StartedWorkers(n), w);
  }

  lemma CountWakeAll(m: map<Tid, Status>)
    ensures BusyWorkers(WakeAll(m)) == BusyWorkers(m) && StartedWorkers(WakeAll(m)) == StartedWorkers(m)
  {}

  /** Worker `w` takes the front task. */
  lemma TakeAccounted(p: Pool, w: Tid, q: Pool)
    requires Accounted(p) && w in p.workers && !p.workers[w].Busy?
    requires q.workers == p.workers[w := Busy(p.started)] && q.started == p.started + 1 && q.done == p.done
    ensures Accounted(q)
  {
    var t := p.started;
    assert !RunningOrDone(p, t);
    forall v, u: nat ensures RunsTask(q, v, u) <==> RunsTask(p, v, u) || (v == w && u == t) {}
    forall u: nat ensures RunningOrDone(q, u) <==> u < q.started {
      assert RunningOrDone(p, u) <==> u < p.started;
      if u == t { assert RunsTask(q, w, u); }
      if v :| RunsTask(p, v, u) { assert RunsTask(q, v, u); }
    }
  }

  /** The top of the loop, for a worker between its tasks. */
  lemma LoopTopKeeps(p: Pool, w: Tid)
    requires Fifo(p) && Accounted(p) && w in p.workers && !p.workers[w].Busy?
    requires p.busyThreadCount == |BusyWorkers(p.workers)|
    requires p.threadCount == |StartedWorkers(p.workers)| + One(p.workers[w] == Created)
    ensures Inv(LoopTop(p, w))
  {
    var q := LoopTop(p, w);
    CountUpdate(p.workers, w, Idle);
    CountRemove(p.workers, w);
    if p.isRunning && p.queue != [] {
      CountUpdate(p.workers, w, Busy(p.queue[0]));
      TakeAccounted(p, w, q);
      TakeFifo(p, w);
    } else {
      SameWork(p, q);
    }
  }

  lemma TakeFifo(p: Pool, w: Tid)
    requires Fifo(p) && p.isRunning && p.queue != []
    ensures Fifo(LoopTop(p, w))
  {
    var q := LoopTop(p, w);
    forall i | 0 <= i < |q.queue| ensures q.queue[i] == q.started + i { assert q.queue[i] == p.queue[i + 1]; }
  }

  /** Steps that neither start nor finish a submission leave the accounts alone. */
  lemma SameWork(p: Pool, q: Pool)
    requires Accounted(p) && q.started == p.started && q.done == p.done
    requires forall w, t: nat :: RunsTask(q, w, t) <==> RunsTask(p, w, t)
    ensures Accounted(q)
  {
    forall t: nat ensures RunningOrDone(q, t) <==> t < q.started {
      assert RunningOrDone(p, t) <==> t < p.started;
      if w :| RunsTask(p, w, t) { assert RunsTask(q, w, t); }
      if w :| RunsTask(q, w, t) { assert RunsTask(p, w, t); }
    }
  }

  /** A worker that is not busy changes status, and stays not busy. */
  lemma ShiftKeeps(p: Pool, w: Tid, s: Status)
    requires Inv(p) && !IsBusy(p, w) && !s.Busy?
    requires (w in p.workers && p.workers[w] != Created) <==> s != Created
    ensures Inv(With(p, w, s))
  {
    CountUpdate(p.workers, w, s);
    SameWork(p, With(p, w, s));
  }

  lemma SubmitKeeps(p: Pool)
    requires Inv(p)
    ensures Inv(Submit(p))
  {
    SameWork(p, Submit(p));
  }

  lemma DispatchKeeps(p: Pool, wake: Tid, created: Tid)
    requires Inv(p) && created !in p.workers
    ensures Inv(Dispatch(p, wake, created).0)
  {
    var p1 := Submit(p);
    SubmitKeeps(p);
    if p1.busyThreadCount < p1.threadCount {
      if IsIdle(p1, wake) { ShiftKeeps(p1, wake, Woken); }
    } else if p1.threadCount < p1.maxThreadCount {
      ShiftKeeps(p1, created, Created);
    }
  }

  lemma FinishAccounted(p: Pool, w: Tid, q: Pool)
    requires Accounted(p) && IsBusy(p, w)
    requires q.workers == p.workers[w := Woken] && q.started == p.started && q.done == p.done + {p.workers[w].task}
    ensures Accounted(q)
  {
    var t := p.workers[w].task;
    assert RunsTask(p, w, t);
    forall v, u: nat ensures RunsTask(q, v, u) <==> RunsTask(p, v, u) && v != w {}
    forall u: nat ensures RunningOrDone(q, u) <==> u < q.started {
      assert RunningOrDone(p, u) <==> u < p.started;
      if v :| RunsTask(p, v, u) { assert v != w ==> RunsTask(q, v, u); }
      if v :| RunsTask(q, v, u) { assert RunsTask(p, v, u); }
    }
  }

  lemma FinishKeeps(p: Pool, w: Tid)
    requires Inv(p) && IsBusy(p, w)
    ensures Inv(Next(p, Finish(w)))
  {
    // the worker counts as woken between dropping its task and the top of the loop
    var r := With(p, w, Woken).(busyThreadCount := p.busyThreadCount - 1, done := p.done + {p.workers[w].task});
    CountUpdate(p.workers, w, Woken);
    FinishAccounted(p, w, r);
    LoopTopKeeps(r, w);
    LoopTopForgets(p.(busyThreadCount := p.busyThreadCount - 1, done := p.done + {p.workers[w].task}), w, Woken);
  }

  lemma LoopTopForgets(p: Pool, w: Tid, s: Status)
    ensures LoopTop(With(p, w, s), w) == LoopTop(p, w)
  {
    assert p.workers[w := s] - {w} == p.workers - {w};
    if p.isRunning && p.queue != [] {
      assert p.workers[w := s][w := Busy(p.queue[0])] == p.workers[w := Busy(p.queue[0])];
    }
    assert p.workers[w := s][w := Idle] == p.workers[w := Idle];
  }

  lemma StepKeepsInv(p: Pool, e: Event)
    requires Inv(p) && Enabled(p, e)
    ensures Inv(Next(p, e))
  {
    match e
    case RunTask(wake, created) => DispatchKeeps(p, wake, created);
    case Begin(w) =>
      var p1 := p.(threadCount := p.threadCount + 1);
      SameWork(p, p1);
      LoopTopKeeps(p1, w);
    case Finish(w) => FinishKeeps(p, w);
    case Resume(w) => LoopTopKeeps(p, w);
    case Spurious(w) => ShiftKeeps(p, w, Woken);
    case TimeOut(w) => ShiftKeeps(p, w, Expired);
    case Exit(w) =>
      CountRemove(p.workers, w);
      SameWork(p, Next(p, e));
    case Stop =>
      CountWakeAll(p.workers);
      SameWork(p, Next(p, e));
  }

  // -------------------------------------------------------------- submissions

  /** Calls of RunTask. */
  function Submissions(es: seq<Event>): nat {
    if es == [] then 0 else (if es[0].RunTask? then 1 else 0) + Submissions(es[1..])
  }

  lemma StepSubmits(p: Pool, e: Event)
    ensures Next(p, e).submitted == p.submitted + Submissions([e])
  {}

  /** RunTask puts its task behind those that are queued, and takes nothing away. The pool
      reports a pending task exactly when all started workers are busy and there are as many
      as it may have. */
  lemma RunTaskQueues(p: Pool, wake: Tid, created: Tid)
    requires Inv(p) && Enabled(p, RunTask(wake, created))
    ensures var q := Next(p, RunTask(wake, created));
            |q.queue| == |p.queue| + 1 && q.queue[..|p.queue|] == p.queue && q.queue[|p.queue|] == p.submitted
    ensures Dispatch(p, wake, created).1 == Pending <==>
              StartedWorkers(p.workers) <= BusyWorkers(p.workers) && |StartedWorkers(p.workers)| >= p.maxThreadCount
  {
    AllBusyIff(p);
  }

  lemma AllBusyIff(p: Pool)
    requires Inv(p)
    ensures StartedWorkers(p.workers) <= BusyWorkers(p.workers) <==> p.busyThreadCount >= p.threadCount
  {
    BusyAtMostStarted(p);
    if StartedWorkers(p.workers) <= BusyWorkers(p.workers) {
      SubsetSize(StartedWorkers(p.workers), BusyWorkers(p.workers));
    } else {
      var w :| w in StartedWorkers(p.workers) && w !in BusyWorkers(p.workers);
      SubsetSize(BusyWorkers(p.workers), StartedWorkers(p.workers) - {w});
    }
  }

  /** Whom RunTask touches: a new worker exactly when all started ones are busy and there may
      be more, the waiting worker that the signal reaches when some started one is not busy,
      and nobody else. */
  lemma RunTaskTouches(p: Pool, wake: Tid, created: Tid, w: Tid)
    requires Inv(p) && Enabled(p, RunTask(wake, created))
    ensures var q := Next(p, RunTask(wake, created));
            var allBusy := StartedWorkers(p.workers) <= BusyWorkers(p.workers);
            && (created in q.workers <==> allBusy && |StartedWorkers(p.workers)| < p.maxThreadCount)
            && (created in q.workers ==> q.workers[created] == Created)
            && (w != created ==> (w in q.workers <==> w in p.workers))
            && (w in p.workers ==> q.workers[w] == if !allBusy && w == wake && p.workers[w] == Idle then Woken
                                                   else p.workers[w])
            && q.threadCount == p.threadCount && q.busyThreadCount == p.busyThreadCount && q.done == p.done
            && q.started == p.started && q.isRunning == p.isRunning
  {
    AllBusyIff(p);
  }

  // --------------------------------------------------------- nobody is stranded

  lemma SomeoneNotBusy(p: Pool) returns (w: Tid)
    requires Counts(p) && p.busyThreadCount < p.threadCount
    ensures w in StartedWorkers(p.workers) && !IsBusy(p, w)
  {
    if StartedWorkers(p.workers) <= BusyWorkers(p.workers) {
      SubsetSize(StartedWorkers(p.workers), BusyWorkers(p.workers));
      assert false;
    }
    w :| w in StartedWorkers(p.workers) && w !in BusyWorkers(p.workers);
  }

  /** RunTask takes a free worker for granted (busyThreadCount < threadCount), but nobody is
      on the way to the queue and a worker that has timed out may use the signal up. */
  ghost predicate SignalMayBeLost(p: Pool) {
    p.busyThreadCount < p.threadCount && (exists w :: IsExpired(p, w)) && forall w :: !IsActive(p, w)
  }

  /** Whichever thread the signal reaches, the task has somebody to run it. */
  ghost predicate SafeToRun(p: Pool, created: Tid) {
    forall wake :: Enabled(p, RunTask(wake, created)) ==> NoStrandedTask(Next(p, RunTask(wake, created)))
  }

  lemma ActiveStays(p: Pool, wake: Tid, created: Tid, w: Tid)
    requires created !in p.workers && IsActive(p, w)
    ensures IsActive(Next(p, RunTask(wake, created)), w)
  {}

  /** A worker in the pool that is neither busy nor timed out takes the task. */
  lemma RunTaskIsSafe(p: Pool, wake: Tid, created: Tid)
    requires Inv(p) && Enabled(p, RunTask(wake, created)) && p.maxThreadCount >= 1 && !SignalMayBeLost(p)
    ensures NoStrandedTask(Next(p, RunTask(wake, created)))
  {
    var q := Next(p, RunTask(wake, created));
    BusyAtMostStarted(p);
    if w :| IsActive(p, w) {
      ActiveStays(p, wake, created, w);
    } else if p.busyThreadCount < p.threadCount {
      var w := SomeoneNotBusy(p);
      assert !IsActive(p, w) && !IsExpired(p, w);
      assert IsIdle(p, w) && !IsExpired(p, wake);
      assert IsActive(q, wake);
    } else if p.threadCount < p.maxThreadCount {
      assert IsActive(q, created);
    } else {
      assert BusyWorkers(p.workers) != {};
      var w :| w in BusyWorkers(p.workers);
      assert IsActive(p, w);
    }
  }

  /** RunTask is safe for its task in just the other states. */
  lemma RunTaskStrandsIff(p: Pool, created: Tid)
    requires Inv(p) && created !in p.workers && p.maxThreadCount >= 1 && p.isRunning
    ensures SafeToRun(p, created) <==> !SignalMayBeLost(p)
  {
    if SignalMayBeLost(p) {
      var w :| IsExpired(p, w);
      var q := Next(p, RunTask(w, created));
      assert q.workers == p.workers && forall v :: IsActive(q, v) ==> IsActive(p, v);
      assert Enabled(p, RunTask(w, created)) && !NoStrandedTask(q);
    } else {
      forall wake | Enabled(p, RunTask(wake, created)) ensures NoStrandedTask(Next(p, RunTask(wake, created))) {
        RunTaskIsSafe(p, wake, created);
      }
    }
  }

  /** No other step strands a task. */
  lemma StepStrandsNobody(p: Pool, e: Event)
    requires Inv(p) && Enabled(p, e) && NoStrandedTask(p) && p.maxThreadCount >= 1
    requires e.RunTask? && p.isRunning ==> !SignalMayBeLost(p)
    ensures NoStrandedTask(Next(p, e))
  {
    var q := Next(p, e);
    match e
    case RunTask(wake, created) => if p.isRunning { RunTaskIsSafe(p, wake, created); }
    case Begin(w) => if q.isRunning && q.queue != [] { assert IsActive(q, w); }
    case Finish(w) => if q.isRunning && q.queue != [] { assert IsActive(q, w); }
    case Resume(w) => if q.isRunning && q.queue != [] { assert IsActive(q, w); }
    case Spurious(w) => assert IsActive(q, w);
    case TimeOut(w) => if v :| IsActive(p, v) { assert IsActive(q, v); }
    case Exit(w) => if v :| IsActive(p, v) { assert IsActive(q, v); }
    case Stop =>
  }

  /** `es` takes `p` to `q`; no RunTask falls between a worker's time-out and its exit
      while nobody else is on the way to the queue. */
  ghost predicate Runs(p: Pool, es: seq<Event>, q: Pool)
    decreases |es|
  {
    if es == [] then q == p
    else && Enabled(p, es[0]) && (es[0].RunTask? && p.isRunning ==> !SignalMayBeLost(p))
         && Runs(Next(p, es[0]), es[1..], q)
  }

  lemma {:induction false} RunKeeps(p: Pool, es: seq<Event>, q: Pool)
    requires Inv(p) && NoStrandedTask(p) && p.maxThreadCount >= 1 && Runs(p, es, q)
    ensures Inv(q) && NoStrandedTask(q)
    decreases |es|
  {
    if es == [] {
    } else {
      StepKeepsInv(p, es[0]);
      StepStrandsNobody(p, es[0]);
      RunKeeps(Next(p, es[0]), es[1..], q);
    }
  }

  lemma StartInv(maxThreadCount: nat)
    ensures Inv(Start(maxThreadCount)) && NoStrandedTask(Start(maxThreadCount))
  {
    var p := Start(maxThreadCount);
    assert BusyWorkers(p.workers) == {} && StartedWorkers(p.workers) == {};
    assert forall t: nat :: !RunningOrDone(p, t);
  }

  /** In every interleaving from a new pool in which no signal is lost, no queued task is
      stranded. */
  lemma ReachableSafe(maxThreadCount: nat, es: seq<Event>, q: Pool)
    requires maxThreadCount >= 1 && Runs(Start(maxThreadCount), es, q)
    ensures Inv(q) && NoStrandedTask(q) && q.busyThreadCount <= q.threadCount
  {
    StartInv(maxThreadCount);
    RunKeeps(Start(maxThreadCount), es, q);
    BusyAtMostStarted(q);
  }

  /** Every interleaving, lost signals included. */
  ghost predicate Goes(p: Pool, es: seq<Event>, q: Pool)
    decreases |es|
  {
    if es == [] then q == p else Enabled(p, es[0]) && Goes(Next(p, es[0]), es[1..], q)
  }

  lemma {:induction false} GoesKeeps(p: Pool, es: seq<Event>, q: Pool)
    requires Inv(p) && Goes(p, es, q)
    ensures Inv(q) && q.submitted == p.submitted + Submissions(es) && q.maxThreadCount == p.maxThreadCount
    decreases |es|
  {
    if es == [] {
    } else {
      StepKeepsInv(p, es[0]);
      StepSubmits(p, es[0]);
      GoesKeeps(Next(p, es[0]), es[1..], q);
    }
  }

  /** In every interleaving from a new pool the counters count the workers, and the tasks of
      all calls of RunTask, and no others, are queued, running or done. They are started in
      the order of the calls. */
  lemma EveryTaskIsKept(maxThreadCount: nat, es: seq<Event>, q: Pool)
    requires Goes(Start(maxThreadCount), es, q)
    ensures Inv(q) && q.submitted == Submissions(es) && q.maxThreadCount == maxThreadCount
    ensures forall t: nat :: t < Submissions(es) <==> t in q.queue || RunningOrDone(q, t)
    ensures forall t: nat :: RunningOrDone(q, t) <==> t < q.started
  {
    StartInv(maxThreadCount);
    GoesKeeps(Start(maxThreadCount), es, q);
    forall t: nat ensures t < q.submitted <==> t in q.queue || RunningOrDone(q, t) {
      if q.started <= t < q.submitted { assert q.queue[t - q.started] == t; }
    }
  }

  ghost predicate Takes(p: Pool, e: Event, q: Pool) { Enabled(p, e) && q == Next(p, e) }

  /** Worker 0 of a pool of one, having run submission 0. */
  function Lone(s: Status): Pool { Pool([], map[0 := s], 1, 0, 1, true, 1, 1, {0}) }

  lemma LoneWorker(p1: Pool, p2: Pool)
    requires p1 == Pool([0], map[0 := Created], 0, 0, 1, true, 1, 0, {})
    requires p2 == Pool([], map[0 := Busy(0)], 1, 1, 1, true, 1, 1, {})
    ensures Takes(Start(1), RunTask(0, 0), p1) && Takes(p1, Begin(0), p2) && Takes(p2, Finish(0), Lone(Idle))
  {
    assert forall w :: !IsIdle(Start(1), w);
    assert [0][1..] == [];
    assert map[0 := Created][0 := Busy(0)] == map[0 := Busy(0)];
    assert map[0 := Busy(0)][0 := Idle] == map[0 := Idle];
  }

  /** The window is real: one worker has done its task (LoneWorker), and times out just
      before the next task comes. Nobody is woken, nobody is created, and then it leaves. */
  lemma TaskStranded(q1: Pool, q2: Pool)
    requires q1 == Lone(Expired).(queue := [1], submitted := 2)
    requires q2 == q1.(workers := map[], threadCount := 0)
    ensures Takes(Lone(Idle), TimeOut(0), Lone(Expired)) && SignalMayBeLost(Lone(Expired))
    ensures Takes(Lone(Expired), RunTask(0, 1), q1) && Takes(q1, Exit(0), q2)
    ensures !NoStrandedTask(q2)
  {
    assert map[0 := Idle][0 := Expired] == map[0 := Expired];
    assert IsExpired(Lone(Expired), 0);
    assert forall w :: !IsIdle(Lone(Expired), w);
    assert map[0 := Expired] - {0} == map[];
    assert forall w :: !IsActive(q2, w);
  }

  /** Two workers of a pool of two, having run two submissions. */
  function Pair(s: Status, t: Status): Pool { Pool([], map[0 := s, 1 := t], 2, 0, 2, true, 2, 2, {0, 1}) }

  lemma PairStarted(p1: Pool, p2: Pool, p3: Pool, p4: Pool)
    requires p1 == Pool([0], map[0 := Created], 0, 0, 2, true, 1, 0, {})
    requires p2 == Pool([0, 1], map[0 := Created, 1 := Created], 0, 0, 2, true, 2, 0, {})
    requires p3 == Pool([1], map[0 := Busy(0), 1 := Created], 1, 1, 2, true, 2, 1, {})
    requires p4 == Pool([], map[0 := Busy(0), 1 := Busy(1)], 2, 2, 2, true, 2, 2, {})
    ensures Takes(Start(2), RunTask(0, 0), p1) && Takes(p1, RunTask(1, 1), p2)
    ensures Takes(p2, Begin(0), p3) && Takes(p3, Begin(1), p4)
  {
    assert forall w :: !IsIdle(Start(2), w) && !IsIdle(p1, w);
    assert [0, 1][1..] == [1] && [1][1..] == [];
    assert map[0 := Created, 1 := Created][0 := Busy(0)] == map[0 := Busy(0), 1 := Created];
    assert map[0 := Busy(0), 1 := Created][1 := Busy(1)] == map[0 := Busy(0), 1 := Busy(1)];
  }

  /** Both have done their tasks and wait, and then worker 0 times out. */
  lemma PairWaits(p4: Pool, p5: Pool)
    requires p4 == Pool([], map[0 := Busy(0), 1 := Busy(1)], 2, 2, 2, true, 2, 2, {})
    requires p5 == Pool([], map[0 := Idle, 1 := Busy(1)], 2, 1, 2, true, 2, 2, {0})
    ensures Takes(p4, Finish(0), p5) && Takes(p5, Finish(1), Pair(Idle, Idle))
    ensures Takes(Pair(Idle, Idle), TimeOut(0), Pair(Expired, Idle))
  {
    assert map[0 := Busy(0), 1 := Busy(1)][0 := Idle] == map[0 := Idle, 1 := Busy(1)];
    assert map[0 := Idle, 1 := Busy(1)][1 := Idle] == map[0 := Idle, 1 := Idle];
    assert map[0 := Idle, 1 := Idle][0 := Expired] == map[0 := Expired, 1 := Idle];
  }

  /** One worker still waits (PairStarted, PairWaits), and yet the task is stranded: the
      other one, which has timed out, uses the signal up and leaves. */
  lemma SignalLost(q1: Pool, q2: Pool)
    requires q1 == Pair(Expired, Idle).(queue := [2], submitted := 3)
    requires q2 == q1.(workers := map[1 := Idle], threadCount := 1)
    ensures SignalMayBeLost(Pair(Expired, Idle))
    ensures Takes(Pair(Expired, Idle), RunTask(0, 2), q1) && Takes(q1, Exit(0), q2)
    ensures !NoStrandedTask(q2) && IsIdle(q2, 1)
  {
    assert IsExpired(Pair(Expired, Idle), 0);
    assert map[0 := Expired, 1 := Idle] - {0} == map[1 := Idle];
    assert forall w :: !IsActive(q2, w);
  }

  // ------------------------------------------------------------------- draining

  /** From every such state the workers on their own can get through the whole queue. */
  lemma {:induction false} CanDrain(p: Pool) returns (es: seq<Event>, q: Pool)
    requires Inv(p) && NoStrandedTask(p) && p.maxThreadCount >= 1 && p.isRunning
    ensures Runs(p, es, q) && q.queue == [] && q.started == p.submitted == q.submitted
    decreases |p.queue|
  {
    if p.queue == [] {
      es, q := [], p;
    } else {
      var w :| IsActive(p, w);
      var e := match p.workers[w] case Created => Begin(w) case Woken => Resume(w) case _ => Finish(w);
      StepKeepsInv(p, e);
      StepStrandsNobody(p, e);
      es, q := CanDrain(Next(p, e));
      es := [e] + es;
    }
  }

  // ------------------------------------------------------------------- stopping

  /** StopAllThread's result: RT_ERROR_THREADPOOL_TASKS_CANCELLED or RT_OK. */
  predicate Cancels(p: Pool) { p.queue != [] }

  /** The code assumes that a stopper who sees no worker busy finds no task queued. That
      is so unless some worker is on its way to the queue: woken and waiting for the
      lock, or created and not through its first lock. */
  lemma StopWhenIdle(p: Pool)
    requires Inv(p) && NoStrandedTask(p) && p.isRunning && p.busyThreadCount == 0
    ensures Cancels(p) ==> exists w :: w in p.workers && (p.workers[w] == Woken || p.workers[w] == Created)
  {
    if Cancels(p) {
      var w :| IsActive(p, w);
      assert w !in BusyWorkers(p.workers);
    }
  }

  /** Submitting to a new pool and stopping before the worker has the lock cancels the
      task although no worker was ever busy. */
  lemma StopCanCancel()
    ensures exists p: Pool :: Runs(Start(1), [RunTask(0, 0)], p) && p.busyThreadCount == 0 && Cancels(p)
  {
    var p0 := Start(1);
    assert forall w :: !IsIdle(p0, w);
    var p := Next(p0, RunTask(0, 0));
    assert [RunTask(0, 0)][1..] == [];
    assert Runs(p, [], p);
  }

  /** Everybody in the pool has a step of its own to take: nobody is left waiting. */
  ghost predicate NobodyWaits(p: Pool) { forall w :: !IsIdle(p, w) }

  lemma StoppedStep(p: Pool, e: Event)
    requires !p.isRunning && NobodyWaits(p) && Enabled(p, e)
    ensures var q := Next(p, e);
            && !q.isRunning && NobodyWaits(q) && q.started == p.started && p.queue <= q.queue
            && (!e.RunTask? ==> q.queue == p.queue)
  {
    var q := Next(p, e);
    forall w ensures !IsIdle(q, w) { assert !IsIdle(p, w); }
  }

  /** From the stop on, whatever happens: no task is started, those that are queued stay so,
      and no worker is left waiting for a signal. */
  lemma {:induction false} StopHolds(p: Pool, es: seq<Event>, q: Pool)
    requires !p.isRunning && NobodyWaits(p) && Runs(p, es, q)
    ensures !q.isRunning && NobodyWaits(q) && q.started == p.started && p.queue <= q.queue
    decreases |es|
  {
    if es == [] {
    } else {
      StoppedStep(p, es[0]);
      StopHolds(Next(p, es[0]), es[1..], q);
    }
  }

  lemma StopStops(p: Pool, es: seq<Event>, q: Pool)
    requires Runs(Next(p, Stop), es, q)
    ensures !q.isRunning && NobodyWaits(q) && q.started == p.started && p.queue <= q.queue
  {
    StopHolds(Next(p, Stop), es, q);
  }

  /** The step a worker of a stopped pool has: it leaves with it. */
  lemma Leaves(p: Pool, w: Tid) returns (e: Event)
    requires !p.isRunning && NobodyWaits(p) && w in p.workers
    ensures Enabled(p, e) && !e.RunTask? && Next(p, e).workers == p.workers - {w}
  {
    assert !IsIdle(p, w);
    e := match p.workers[w]
      case Created => Begin(w)
      case Woken => Resume(w)
      case Expired => Exit(w)
      case _ => Finish(w);
  }

  /** And the workers of a stopped pool can all leave, each with one step. */
  lemma {:induction false} CanLeave(p: Pool) returns (es: seq<Event>, q: Pool)
    requires !p.isRunning && NobodyWaits(p)
    ensures Runs(p, es, q) && q.workers == map[] && |es| == |p.workers| && q.queue == p.queue
    decreases |p.workers|
  {
    if p.workers == map[] {
      es, q := [], p;
    } else {
      var w :| w in p.workers;
      var e := Leaves(p, w);
      StoppedStep(p, e);
      assert |p.workers - {w}| == |p.workers| - 1 by { assert (p.workers - {w}).Keys == p.workers.Keys - {w}; }
      es, q := CanLeave(Next(p, e));
      es := [e] + es;
    }
  }

  // ------------------------------------------------------------- how many workers

  /** RunTask takes the pool over its maximum exactly when all started workers are busy, fewer
      than that many have started, and the others are created and not through their first
      lock. */
  lemma MaximumKeptIff(p: Pool, wake: Tid, created: Tid)
    requires Inv(p) && Enabled(p, RunTask(wake, created)) && |p.workers| <= p.maxThreadCount
    ensures |Next(p, RunTask(wake, created)).workers| <= p.maxThreadCount <==>
              !(StartedWorkers(p.workers) <= BusyWorkers(p.workers) && |StartedWorkers(p.workers)| < p.maxThreadCount
                && |p.workers| == p.maxThreadCount)
  {
    var q := Next(p, RunTask(wake, created));
    RunTaskTouches(p, wake, created, created);
    forall w ensures w in q.workers <==> w in p.workers || (w == created && created in q.workers) {
      RunTaskTouches(p, wake, created, w);
    }
    OneMoreKey(p.workers, q.workers, created);
  }

  lemma OneMoreKey(m: map<Tid, Status>, m': map<Tid, Status>, k: Tid)
    requires k !in m && forall w :: w in m' <==> w in m || (w == k && k in m')
    ensures |m'| == |m| + if k in m' then 1 else 0
  {
    assert m'.Keys == if k in m' then m.Keys + {k} else m.Keys;
  }

  /** Nothing else brings anybody in. */
  lemma OnlyRunTaskCreates(p: Pool, e: Event)
    requires Enabled(p, e) && !e.RunTask?
    ensures Next(p, e).workers.Keys <= p.workers.Keys
  {}

  /** Two tasks in a row give a pool of one two workers. */
  lemma MaximumExceeded(p1: Pool, p2: Pool)
    requires p1 == Pool([0], map[0 := Created], 0, 0, 1, true, 1, 0, {})
    requires p2 == Pool([0, 1], map[0 := Created, 1 := Created], 0, 0, 1, true, 2, 0, {})
    ensures Takes(Start(1), RunTask(0, 0), p1) && Takes(p1, RunTask(1, 1), p2)
    ensures |p1.workers| <= p1.maxThreadCount < |p2.workers|
  {
    assert forall w :: !IsIdle(Start(1), w) && !IsIdle(p1, w);
    assert p2.workers.Keys == {0, 1};
  }

  // -------------------------------------------------------------- the pool itself

  /** struct _rtThreadPool, and what each thread is doing between its locked regions.
      Every method below is the code from one lock to the next unlock or wait. */
  class WorkerPool {
    var taskList: seq<nat>
    var threads: map<Tid, Status>
    var threadCount: int
    var busyThreadCount: int
    var isRunning: bool
    const maxThreadCount: nat

    ghost var submitted: nat
    ghost var started: nat
    ghost var done: set<nat>

    ghost function View(): Pool
      reads this
    {
      Pool(taskList, threads, threadCount, busyThreadCount, maxThreadCount, isRunning, submitted, started, done)
    }

    constructor (maxThreadCount: nat)
      ensures View() == Start(maxThreadCount)
    {
      taskList, threads, threadCount, busyThreadCount, isRunning := [], map[], 0, 0, true;
      this.maxThreadCount := maxThreadCount;
      submitted, started, done := 0, 0, {};
    }

    /** `task` is the number of the submission, `wake` the thread the signal would reach. */
    method RunTask(task: nat, wake: Tid, created: Tid) returns (err: RunCode)
      requires task == submitted
      modifies this
      ensures (View(), err) == Dispatch(old(View()), wake, created)
    {
      taskList := taskList + [task];
      submitted := submitted + 1;
      err := RunOk;
      if busyThreadCount < threadCount {
        if wake in threads && threads[wake] == Idle { threads := threads[wake := Woken]; }
      } else if threadCount < maxThreadCount {
        threads := threads[created := Created];
      } else {
        err := Pending;
      }
    }

    method DequeTask(w: Tid) returns (found: bool)
      modifies `taskList, `threads, `started
      ensures found <==> old(isRunning) && old(taskList) != []
      ensures !found ==> View() == old(View())
      ensures found ==> old(taskList) == [old(taskList)[0]] + taskList && started == old(started) + 1
      ensures found ==> threads == old(threads)[w := Busy(old(taskList)[0])]
    {
      found := false;
      if isRunning && taskList != [] {
        threads := threads[w := Busy(taskList[0])];
        taskList := taskList[1..];
        started := started + 1;
        found := true;
      }
    }

    /** From the loop conditions to the next unlock, wait or return. */
    method AtLoopTop(w: Tid)
      modifies this
      ensures View() == LoopTop(old(View()), w)
    {
      var found := DequeTask(w);
      if found {
        assert old(taskList)[1..] == taskList;
        busyThreadCount := busyThreadCount + 1;
      } else if isRunning {
        threads := threads[w := Idle];
      } else {
        threadCount := threadCount - 1;
        threads := threads - {w};
      }
    }

    method FirstLock(w: Tid)
      modifies this
      ensures View() == Next(old(View()), Begin(w))
    {
      threadCount := threadCount + 1;
      AtLoopTop(w);
    }

    method TaskReturned(w: Tid)
      requires IsBusy(View(), w)
      modifies this
      ensures View() == Next(old(View()), Finish(w))
    {
      busyThreadCount := busyThreadCount - 1;
      done := done + {threads[w].task};
      AtLoopTop(w);
    }

    method WaitReturned(w: Tid, timedOut: bool)
      modifies this
      ensures View() == Next(old(View()), if timedOut then Exit(w) else Resume(w))
    {
      if timedOut {
        threadCount := threadCount - 1;
        threads := threads - {w};
      } else {
        AtLoopTop(w);
      }
    }

    /** From the last wait for idleCond on; true for RT_ERROR_THREADPOOL_TASKS_CANCELLED. */
    method StopAllThread() returns (cancelled: bool)
      modifies this
      ensures View() == Next(old(View()), Stop)
      ensures cancelled == Cancels(old(View()))
    {
      isRunning := false;
      threads := WakeAll(threads);
      cancelled := |taskList| != 0;
    }
  }
}
