/** The callback queue of rtConnection.c: the reader pushes messages that are not
    responses, one callback thread runs the listeners on them. */
module Callbacks {
  import opened Sequences

  /** Messages are numbered in the order they arrive. Where the callback thread is: Top of
      its loop, Waiting on the condition, Woken and without the lock yet, Ready with the
      front item in hand, Running its callback, or Exited. */
  datatype Phase = Top | Waiting | Woken | Ready(item: nat) | Running(item: nat) | Exited

  /** `calls` is the history of messages handed to a callback; `stopping` that a stopper
      has cleared run_threads and not signalled yet. */
  datatype Queue = Queue(messages: seq<nat>, arrived: nat, phase: Phase, runThreads: bool, stopping: bool,
                         calls: seq<nat>)

  const START := Queue([], 0, Top, true, false, [])

  /** Push: the reader's locked region. Check, Resume, Call and Done: the callback thread's.
      Spurious: a wake-up without a signal. Stop and StopSignal: rtConnection_StopThreads. */
  datatype Event = Push | Check | Spurious | Resume | Call | Done | Stop | StopSignal

  predicate Enabled(q: Queue, e: Event) {
    match e
    case Check => q.phase == Top
    case Spurious => q.phase == Waiting
    case Resume => q.phase == Woken
    case Call => q.phase.Ready?
    case Done => q.phase.Running?
    case StopSignal => q.stopping
    case _ => true
  }

  function Signalled(p: Phase): Phase { if p == Waiting then Woken else p }

  /** The item got from the front, or none. */
  function Front(messages: seq<nat>): Phase { if messages == [] then Top else Ready(messages[0]) }

  function Next(q: Queue, e: Event): Queue {
    match e
    case Push => q.(messages := q.messages + [q.arrived], arrived := q.arrived + 1, phase := Signalled(q.phase))
    case Check =>
      q.(phase := if !q.runThreads then Exited else if q.messages == [] then Waiting else Front(q.messages))
    case Spurious => q.(phase := Woken)
    case Resume => q.(phase := if !q.runThreads then Exited else Front(q.messages))
    case Call =>
      if !q.runThreads || !q.phase.Ready? then q.(phase := Exited)
      else q.(phase := Running(q.phase.item), calls := q.calls + [q.phase.item])
    case Done =>
      if q.phase.Running? then
        var rest := RemoveFirst(q.messages, q.phase.item);
        q.(messages := rest, phase := Front(rest))
      else q
    case Stop => q.(runThreads := false, stopping := true)
    case StopSignal => q.(stopping := false, phase := Signalled(q.phase))
  }

  function UpTo(n: nat): (r: seq<nat>)
    ensures |r| == n && forall i :: 0 <= i < n ==> r[i] == i
  {
    seq(n, i => i)
  }

  /** Messages taken off the queue. */
  function Handled(q: Queue): nat { if |q.messages| <= q.arrived then q.arrived - |q.messages| else 0 }

  ghost predicate InOrder(q: Queue) {
    && |q.messages| <= q.arrived
    && forall i :: 0 <= i < |q.messages| ==> q.messages[i] == Handled(q) + i
  }

  /** What has been handed to callbacks: everything off the queue, and the item in hand
      once its callback has been entered. */
  ghost predicate Called(q: Queue) {
    q.calls == UpTo(Handled(q) + if q.phase.Running? then 1 else 0)
  }

  /** The callback thread never sleeps on a message, nor through a stop. */
  ghost predicate Awake(q: Queue) { q.phase == Waiting ==> q.messages == [] && (q.runThreads || q.stopping) }

  ghost predicate Inv(q: Queue) {
    && InOrder(q) && Called(q) && Awake(q)
    && (q.phase.Ready? || q.phase.Running? ==> q.messages != [] && q.phase.item == q.messages[0])
    && (q.phase == Exited ==> !q.runThreads)
  }

  lemma StepKeepsInv(q: Queue, e: Event)
    requires Inv(q) && Enabled(q, e)
    ensures Inv(Next(q, e))
  {
    var q' := Next(q, e);
    match e
    case Call => assert UpTo(Handled(q)) + [Handled(q)] == UpTo(Handled(q) + 1);
    case Done =>
      RemoveFirstCons(q.messages, q.phase.item);
      assert q'.messages == q.messages[1..];
    case _ => assert Handled(q') == Handled(q);
  }

  ghost predicate Runs(q: Queue, es: seq<Event>, q': Queue)
    decreases |es|
  {
    if es == [] then q' == q else Enabled(q, es[0]) && Runs(Next(q, es[0]), es[1..], q')
  }

  lemma {:induction false} RunKeeps(q: Queue, es: seq<Event>, q': Queue)
    requires Inv(q) && Runs(q, es, q')
    ensures Inv(q')
    decreases |es|
  {
    if es == [] {
    } else {
      StepKeepsInv(q, es[0]);
      RunKeeps(Next(q, es[0]), es[1..], q');
    }
  }

  /** How many messages the reader has pushed. */
  function Pushes(es: seq<Event>): nat {
    if es == [] then 0 else (if es[0] == Push then 1 else 0) + Pushes(es[1..])
  }

  /** Every message pushed is counted, whatever the callback thread is doing. */
  lemma {:induction false} PushesArrive(q: Queue, es: seq<Event>, q': Queue)
    requires Runs(q, es, q')
    ensures q'.arrived == q.arrived + Pushes(es)
    decreases |es|
  {
    if es == [] {
    } else {
      PushesArrive(Next(q, es[0]), es[1..], q');
    }
  }

  /** A push puts one new message behind those that are queued, and takes nothing away. */
  lemma PushedBehind(q: Queue)
    requires Inv(q)
    ensures var m, m' := q.messages, Next(q, Push).messages;
            |m'| == |m| + 1 && m'[..|m|] == m && m'[|m|] !in m && m'[|m|] == q.arrived
    ensures Next(q, Push).calls == q.calls && Next(q, Push).runThreads == q.runThreads
  {}

  /** In every interleaving callbacks are entered once per message pushed, in that order, and
      a message that has been pushed is in the queue or has been handed to its callback; the
      thread is not asleep while a message is queued, nor once a stop has been signalled. */
  lemma HandledOnceInOrder(es: seq<Event>, q: Queue)
    requires Runs(START, es, q)
    ensures Inv(q) && |q.calls| <= Pushes(es) && q.calls == UpTo(|q.calls|)
    ensures forall k: nat :: k < Pushes(es) ==> k in q.messages || k in q.calls
    ensures q.phase == Waiting ==> q.messages == [] && (q.runThreads || q.stopping)
  {
    RunKeeps(START, es, q);
    PushesArrive(START, es, q);
    forall k: nat | k < Pushes(es) ensures k in q.messages || k in q.calls {
      if k < Handled(q) { assert q.calls[k] == k; } else { assert q.messages[k - Handled(q)] == k; }
    }
  }

  /** The thread goes to sleep only where it has just looked at the queue. */
  lemma SleepsAtCheck(q: Queue, e: Event)
    requires Enabled(q, e) && q.phase != Waiting && Next(q, e).phase == Waiting
    ensures e == Check && q.messages == [] && q.runThreads
  {}

  /** With a callback done the next message is in hand at once. */
  lemma NextInHand(q: Queue)
    requires Inv(q) && q.phase.Running? && |q.messages| > 1
    ensures Next(q, Done).phase == Ready(q.messages[1]) && Next(q, Done).messages == q.messages[1..]
  {
    RemoveFirstCons(q.messages, q.phase.item);
  }

  /** While the threads run, the callback thread on its own can hand out everything. */
  lemma {:induction false} CanDrain(q: Queue) returns (es: seq<Event>, q': Queue)
    requires Inv(q) && q.runThreads
    ensures Runs(q, es, q') && q'.calls == UpTo(q.arrived) && q'.arrived == q.arrived && q'.messages == []
    decreases |q.messages|, match q.phase case Top => 3 case Waiting => 0 case Woken => 2 case Ready(_) => 1 case _ => 0
  {
    if q.messages == [] {
      es, q' := [], q;
      assert !q.phase.Running?;
    } else {
      var e := match q.phase case Top => Check case Woken => Resume case Ready(_) => Call case _ => Done;
      StepKeepsInv(q, e);
      if e == Done { RemoveFirstCons(q.messages, q.phase.item); }
      es, q' := CanDrain(Next(q, e));
      es := [e] + es;
    }
  }

  /** So while the threads run every message pushed can be handed to its callback, once and
      in order, without another push. */
  lemma EveryPushCanBeCalled(es: seq<Event>, q: Queue) returns (more: seq<Event>, q': Queue)
    requires Runs(START, es, q) && q.runThreads
    ensures Runs(q, more, q') && Pushes(more) == 0 && q'.calls == UpTo(Pushes(es)) && q'.messages == []
  {
    RunKeeps(START, es, q);
    PushesArrive(START, es, q);
    more, q' := CanDrain(q);
    PushesArrive(q, more, q');
  }

  // -------------------------------------------------------------------- stopping

  /** Events of the callback thread itself. */
  predicate OwnStep(e: Event) { e == Check || e == Resume || e == Call || e == Done }

  function OwnSteps(es: seq<Event>): nat {
    if es == [] then 0 else (if OwnStep(es[0]) then 1 else 0) + OwnSteps(es[1..])
  }

  /** The own steps a stopped thread has before it has exited. */
  function StepsLeft(p: Phase): nat {
    match p
    case Exited => 0
    case Running(_) => 2
    case _ => 1
  }

  /** A thread that is not waiting when the flag is down never waits or calls again. */
  lemma {:induction false} StoppedRun(q: Queue, es: seq<Event>, q': Queue)
    requires !q.runThreads && q.phase != Waiting && Runs(q, es, q')
    ensures !q'.runThreads && q'.phase != Waiting && q'.calls == q.calls
    ensures StepsLeft(q'.phase) + OwnSteps(es) <= StepsLeft(q.phase)
    decreases |es|
  {
    if es == [] {
    } else {
      StoppedRun(Next(q, es[0]), es[1..], q');
    }
  }

  /** Once run_threads has been cleared and the condition signalled, whatever happens
      next: no callback is entered any more, the thread takes at most two more steps, and
      until it has exited it is never blocked, so that the join of the stopper returns. */
  lemma StopEndsThread(q: Queue, es: seq<Event>, q': Queue)
    requires Inv(q) && !q.runThreads && !q.stopping && Runs(q, es, q')
    ensures q'.calls == q.calls && OwnSteps(es) <= 2
    ensures q'.phase == Exited || exists e :: OwnStep(e) && Enabled(q', e)
  {
    StoppedRun(q, es, q');
    match q'.phase
    case Top => assert OwnStep(Check) && Enabled(q', Check);
    case Woken => assert OwnStep(Resume) && Enabled(q', Resume);
    case Ready(_) => assert OwnStep(Call) && Enabled(q', Call);
    case Running(_) => assert OwnStep(Done) && Enabled(q', Done);
    case _ =>
  }

  lemma {:induction false} StopHolds(q: Queue, es: seq<Event>, q': Queue)
    requires Inv(q) && !q.runThreads && Runs(q, es, q')
    ensures Inv(q') && !q'.runThreads && q'.calls == q.calls
    decreases |es|
  {
    if es == [] {
    } else {
      StepKeepsInv(q, es[0]);
      StopHolds(Next(q, es[0]), es[1..], q');
    }
  }

  /** The two halves of rtConnection_StopThreads with anything in between and afterwards: from
      the first on no callback is entered, and from the second on the thread takes at most two
      more steps and is never blocked before it has exited. */
  lemma StopThreadsEndsThread(q: Queue, between: seq<Event>, q1: Queue, es: seq<Event>, q': Queue)
    requires Inv(q) && Runs(Next(q, Stop), between, q1) && Enabled(q1, StopSignal)
    requires Runs(Next(q1, StopSignal), es, q')
    ensures q'.calls == q.calls
    ensures OwnSteps(es) <= 2 && (q'.phase == Exited || exists e :: OwnStep(e) && Enabled(q', e))
  {
    StepKeepsInv(q, Stop);
    StopHolds(Next(q, Stop), between, q1);
    StepKeepsInv(q1, StopSignal);
    StopHolds(Next(q1, StopSignal), es, q');
    StopEndsThread(Next(q1, StopSignal), es, q');
  }

  // ------------------------------------------------------------ the queue in place

  class CallbackQueue {
    var callbackMessageList: seq<nat>
    var runThreads: bool
    var phase: Phase
    var stopping: bool
    ghost var arrived: nat
    ghost var calls: seq<nat>

    ghost function View(): Queue
      reads this
    {
      Queue(callbackMessageList, arrived, phase, runThreads, stopping, calls)
    }

    constructor ()
      ensures View() == START
    {
      callbackMessageList, runThreads, phase, stopping := [], true, Top, false;
      arrived, calls := 0, [];
    }

    /** The reader's side; `message` is its number. */
    method PushMessage(message: nat)
      requires message == arrived
      modifies this
      ensures View() == Next(old(View()), Push)
    {
      callbackMessageList := callbackMessageList + [message];
      arrived := arrived + 1;
      Signal();
    }

    method Signal()
      modifies `phase
      ensures phase == Signalled(old(phase))
    {
      if phase == Waiting { phase := Woken; }
    }

    method GetFront()
      modifies `phase
      ensures phase == Front(callbackMessageList)
    {
      if |callbackMessageList| != 0 { phase := Ready(callbackMessageList[0]); } else { phase := Top; }
    }

    /** From the top of the loop to the wait or the unlock. */
    method CheckQueue()
      requires phase == Top
      modifies `phase
      ensures View() == Next(old(View()), Check)
    {
      if !runThreads {
        phase := Exited;
      } else if |callbackMessageList| == 0 {
        phase := Waiting;
      } else {
        GetFront();
      }
    }

    method AfterWait()
      requires phase == Woken
      modifies `phase
      ensures View() == Next(old(View()), Resume)
    {
      GetFront();
      if !runThreads { phase := Exited; }
    }

    /** The controlled-exit check and the call of the listener. */
    method BeforeCallback() returns (called: bool)
      requires phase.Ready?
      modifies `phase, `calls
      ensures View() == Next(old(View()), Call)
      ensures called == runThreads
    {
      called := runThreads;
      if called {
        calls := calls + [phase.item];
        phase := Running(phase.item);
      } else {
        phase := Exited;
      }
    }

    method AfterCallback()
      requires phase.Running?
      modifies `callbackMessageList, `phase
      ensures View() == Next(old(View()), Done)
    {
      callbackMessageList := RemoveFirst(callbackMessageList, phase.item);
      GetFront();
    }

    method SetRunThreads()
      modifies `runThreads, `stopping
      ensures View() == Next(old(View()), Stop)
    {
      runThreads, stopping := false, true;
    }

    method SignalStop()
      modifies `phase, `stopping
      ensures View() == Next(old(View()), StopSignal)
    {
      stopping := false;
      Signal();
    }
  }
}
