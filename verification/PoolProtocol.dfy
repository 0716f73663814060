/** The thread pool as an interleaving of atomic statements: workers loop over `HandlerTask`,
    any number of threads loop over `Push`, and one mutex and one condition variable join them.
    Wakeups may be spurious. */
module PoolProtocol {
  import opened Counting
  import opened Ledger

  datatype Holder = Free | ByWorker(w: nat) | ByPusher(p: nat)

  datatype WorkPc<T> =
    | WorkCall              // about to lock
    | WorkTest              // about to test for an empty queue
    | WorkAsleep            // in pthread_cond_wait, not signalled
    | WorkWoken             // in pthread_cond_wait, about to take the mutex back
    | WorkReady             // about to take the front task
    | WorkUnlock(task: T)   // about to unlock
    | WorkRun(task: T)      // about to run the task

  datatype PushPc<T> =
    | PushCall              // about to lock
    | PushAppend(task: T)   // about to append
    | PushWake              // about to signal
    | PushUnlock            // about to unlock

  /** `started` logs which worker took which task; `finished` holds, per worker, the tasks it ran. */
  datatype State<T> = State(
    queue: seq<T>,
    mutex: Holder,
    workers: seq<WorkPc<T>>,
    pushers: seq<PushPc<T>>,
    pushed: seq<T>,
    started: seq<Access<T>>,
    finished: seq<seq<T>>)

  datatype Turn<T> = Worker(w: nat) | Pusher(p: nat, task: T, wake: nat) | SpuriousWake(w: nat)

  ghost predicate Init<T>(s: State<T>) {
    && s.queue == [] && s.mutex == Free
    && (forall t :: 0 <= t < |s.workers| ==> s.workers[t] == WorkCall)
    && (forall t :: 0 <= t < |s.pushers| ==> s.pushers[t] == PushCall)
    && s.pushed == [] && s.started == []
    && |s.finished| == |s.workers| && (forall t :: 0 <= t < |s.finished| ==> s.finished[t] == [])
  }

  predicate Sleeps<T>(pc: WorkPc<T>) { pc.WorkAsleep? }

  /** pthread_cond_signal wakes one sleeper, any one, if there is one. */
  function Signalled<T>(ws: seq<WorkPc<T>>, wake: nat): (t: nat)
    ensures t <= |ws|
    ensures t < |ws| ==> ws[t].WorkAsleep?
    ensures t == |ws| ==> forall i :: 0 <= i < |ws| ==> !ws[i].WorkAsleep?
  {
    if wake < |ws| && ws[wake].WorkAsleep? then wake else First(ws, Sleeps)
  }

  function Signal<T>(ws: seq<WorkPc<T>>, wake: nat): seq<WorkPc<T>> {
    var t := Signalled(ws, wake);
    if t < |ws| then ws[t := WorkWoken] else ws
  }

  // ----- one statement of one thread -----

  function WorkStep<T>(s: State<T>, t: nat): State<T>
    requires t < |s.workers| == |s.finished|
    requires s.workers[t].WorkReady? ==> s.queue != []
  {
    match s.workers[t]
    case WorkCall =>
      if s.mutex == Free then s.(mutex := ByWorker(t), workers := s.workers[t := WorkTest]) else s
    case WorkTest =>
      if s.queue == [] then s.(mutex := Free, workers := s.workers[t := WorkAsleep])
      else s.(workers := s.workers[t := WorkReady])
    case WorkAsleep => s
    case WorkWoken =>
      if s.mutex == Free then s.(mutex := ByWorker(t), workers := s.workers[t := WorkTest]) else s
    case WorkReady =>
      var task := s.queue[0];
      s.(queue := s.queue[1..], started := s.started + [Access(t, task)], workers := s.workers[t := WorkUnlock(task)])
    case WorkUnlock(task) =>
      s.(mutex := Free, workers := s.workers[t := WorkRun(task)])
    case WorkRun(task) =>
      s.(finished := s.finished[t := s.finished[t] + [task]], workers := s.workers[t := WorkCall])
  }

  function PushStep<T>(s: State<T>, t: nat, task: T, wake: nat): State<T>
    requires t < |s.pushers|
  {
    match s.pushers[t]
    case PushCall =>
      if s.mutex == Free then s.(mutex := ByPusher(t), pushers := s.pushers[t := PushAppend(task)]) else s
    case PushAppend(v) =>
      s.(queue := s.queue + [v], pushed := s.pushed + [v], pushers := s.pushers[t := PushWake])
    case PushWake =>
      s.(workers := Signal(s.workers, wake), pushers := s.pushers[t := PushUnlock])
    case PushUnlock =>
      s.(mutex := Free, pushers := s.pushers[t := PushCall])
  }

  function WakeStep<T>(s: State<T>, t: nat): State<T>
    requires t < |s.workers|
  {
    if s.workers[t].WorkAsleep? then s.(workers := s.workers[t := WorkWoken]) else s
  }

  /** Any worker that sleeps may wake up for no reason. */
  lemma SleepersMayWake<T>(s: State<T>, t: nat)
    requires t < |s.workers| && s.workers[t].WorkAsleep?
    ensures WakeStep(s, t) == s.(workers := s.workers[t := WorkWoken])
  {
  }

  // ----- the invariant -----

  predicate WorkHolds<T>(pc: WorkPc<T>) { pc.WorkTest? || pc.WorkReady? || pc.WorkUnlock? }
  predicate PushHolds<T>(pc: PushPc<T>) { !pc.PushCall? }
  predicate Heading<T>(pc: WorkPc<T>) { pc.WorkCall? || pc.WorkTest? || pc.WorkWoken? || pc.WorkReady? }
  predicate Waking<T>(pc: PushPc<T>) { pc.PushWake? }
  predicate HasTask<T>(pc: WorkPc<T>) { pc.WorkUnlock? || pc.WorkRun? }

  ghost predicate Exclusive<T>(s: State<T>) {
    && (s.mutex.ByWorker? ==> s.mutex.w < |s.workers|)
    && (s.mutex.ByPusher? ==> s.mutex.p < |s.pushers|)
    && (forall t :: 0 <= t < |s.workers| ==> (WorkHolds(s.workers[t]) <==> s.mutex == ByWorker(t)))
    && (forall t :: 0 <= t < |s.pushers| ==> (PushHolds(s.pushers[t]) <==> s.mutex == ByPusher(t)))
    && (forall t :: 0 <= t < |s.workers| && s.workers[t].WorkReady? ==> s.queue != [])
  }

  ghost predicate SomeoneSleeps<T>(s: State<T>) {
    exists t :: 0 <= t < |s.workers| && s.workers[t].WorkAsleep?
  }

  /** No lost wakeup: while a worker sleeps unsignalled, there are no more queued tasks than
      workers already on their way to the queue, plus pushers about to send their signal. */
  ghost predicate Covered<T>(s: State<T>) {
    SomeoneSleeps(s) ==> |s.queue| <= Count(s.workers, Heading) + Count(s.pushers, Waking)
  }

  ghost predicate Order<T>(s: State<T>) {
    && |s.started| + |s.queue| == |s.pushed|
    && (forall i :: 0 <= i < |s.started| ==> s.started[i].item == s.pushed[i])
    && s.queue == s.pushed[|s.started|..]
    && (forall i :: 0 <= i < |s.started| ==> s.started[i].who < |s.workers|)
  }

  ghost function InHand<T>(pc: WorkPc<T>): seq<T> {
    if HasTask(pc) then [pc.task] else []
  }

  ghost predicate Ledgers<T>(s: State<T>) {
    && |s.finished| == |s.workers|
    && (forall t :: 0 <= t < |s.workers| ==> By(s.started, t) == s.finished[t] + InHand(s.workers[t]))
  }

  ghost predicate Inv<T>(s: State<T>) {
    Exclusive(s) && Covered(s) && Order(s) && Ledgers(s)
  }

  lemma InitInv<T>(s: State<T>)
    requires Init(s)
    ensures Inv(s)
  {
  }

  // ----- every statement keeps the invariant -----

  lemma WorkExclusive<T>(s: State<T>, t: nat)
    requires Exclusive(s) && t < |s.workers| == |s.finished|
    ensures Exclusive(WorkStep(s, t))
  {
  }

  lemma WorkCovered<T>(s: State<T>, t: nat)
    requires Exclusive(s) && Covered(s) && t < |s.workers| == |s.finished|
    ensures Covered(WorkStep(s, t))
  {
    var s' := WorkStep(s, t);
    CountUpdate(s.workers, t, s'.workers[t], Heading);
    assert s'.workers == s.workers[t := s'.workers[t]];
    assert forall u :: 0 <= u < |s.workers| && u != t && s'.workers[u].WorkAsleep? ==> s.workers[u].WorkAsleep?;
  }

  lemma WorkOrder<T>(s: State<T>, t: nat)
    requires Exclusive(s) && Order(s) && t < |s.workers| == |s.finished|
    ensures Order(WorkStep(s, t))
  {
  }

  lemma WorkLedger<T>(s: State<T>, t: nat, u: nat)
    requires Exclusive(s) && t < |s.workers| == |s.finished| && u < |s.workers|
    requires By(s.started, u) == s.finished[u] + InHand(s.workers[u])
    ensures var s' := WorkStep(s, t); By(s'.started, u) == s'.finished[u] + InHand(s'.workers[u])
  {
    match s.workers[t]
    case WorkReady =>
      ByAppend(s.started, Access(t, s.queue[0]), u);
    case _ =>
  }

  lemma WorkInv<T>(s: State<T>, t: nat)
    requires Inv(s) && t < |s.workers|
    ensures Inv(WorkStep(s, t))
  {
    WorkExclusive(s, t);
    WorkCovered(s, t);
    WorkOrder(s, t);
    forall u: nat | u < |s.workers|
      ensures var s' := WorkStep(s, t); By(s'.started, u) == s'.finished[u] + InHand(s'.workers[u])
    {
      WorkLedger(s, t, u);
    }
  }

  lemma PushCovered<T>(s: State<T>, t: nat, task: T, wake: nat)
    requires Exclusive(s) && Covered(s) && t < |s.pushers|
    ensures Covered(PushStep(s, t, task, wake))
  {
    var s' := PushStep(s, t, task, wake);
    CountUpdate(s.pushers, t, s'.pushers[t], Waking);
    assert s'.pushers == s.pushers[t := s'.pushers[t]];
    if s.pushers[t].PushWake? {
      var w := Signalled(s.workers, wake);
      if w < |s.workers| {
        CountUpdate(s.workers, w, WorkWoken, Heading);
      }
    }
  }

  lemma PushExclusive<T>(s: State<T>, t: nat, task: T, wake: nat)
    requires Exclusive(s) && t < |s.pushers|
    ensures Exclusive(PushStep(s, t, task, wake))
  {
  }

  lemma PushLedgers<T>(s: State<T>, t: nat, task: T, wake: nat)
    requires Ledgers(s) && t < |s.pushers|
    ensures Ledgers(PushStep(s, t, task, wake))
  {
  }

  lemma PushInv<T>(s: State<T>, t: nat, task: T, wake: nat)
    requires Inv(s) && t < |s.pushers|
    ensures Inv(PushStep(s, t, task, wake))
  {
    PushExclusive(s, t, task, wake);
    PushCovered(s, t, task, wake);
    PushLedgers(s, t, task, wake);
  }

  lemma WakeInv<T>(s: State<T>, t: nat)
    requires Inv(s) && t < |s.workers|
    ensures Inv(WakeStep(s, t))
  {
    CountUpdate(s.workers, t, WorkWoken, Heading);
  }

  // ----- whole runs -----

  ghost function Next<T>(s: State<T>, turn: Turn<T>): State<T>
    requires Inv(s)
  {
    match turn
    case Worker(t) => if t < |s.workers| then WorkStep(s, t) else s
    case Pusher(t, task, wake) => if t < |s.pushers| then PushStep(s, t, task, wake) else s
    case SpuriousWake(t) => if t < |s.workers| then WakeStep(s, t) else s
  }

  lemma NextInv<T>(s: State<T>, turn: Turn<T>)
    requires Inv(s)
    ensures Inv(Next(s, turn))
  {
    match turn
    case Worker(t) => if t < |s.workers| { WorkInv(s, t); }
    case Pusher(t, task, wake) => if t < |s.pushers| { PushInv(s, t, task, wake); }
    case SpuriousWake(t) => if t < |s.workers| { WakeInv(s, t); }
  }

  ghost function Exec<T>(s: State<T>, turns: seq<Turn<T>>): State<T>
    requires Inv(s)
    decreases |turns|
  {
    if turns == [] then s
    else
      NextInv(s, turns[0]);
      Exec(Next(s, turns[0]), turns[1..])
  }

  lemma {:induction false} ExecInv<T>(s: State<T>, turns: seq<Turn<T>>)
    requires Inv(s)
    ensures Inv(Exec(s, turns)) && |Exec(s, turns).workers| == |s.workers|
    decreases |turns|
  {
    if turns != [] {
      NextInv(s, turns[0]);
      NextFixed(s, turns[0]);
      ExecInv(Next(s, turns[0]), turns[1..]);
    }
  }

  /** The run of a schedule, starting from a freshly constructed pool, ends in this state. */
  ghost predicate RunEndsIn<T>(s0: State<T>, turns: seq<Turn<T>>, s: State<T>) {
    && Init(s0)
    && (InitInv(s0); Exec(s0, turns) == s)
  }

  ghost predicate Reachable<T(!new)>(s: State<T>) {
    exists s0: State<T>, turns: seq<Turn<T>> :: RunEndsIn(s0, turns, s)
  }

  /** The invariant holds in every state of every run. */
  lemma ReachableInv<T(!new)>(s: State<T>)
    requires Reachable(s)
    ensures Inv(s)
  {
    var s0: State<T>, turns: seq<Turn<T>> :| RunEndsIn(s0, turns, s);
    InitInv(s0);
    ExecInv(s0, turns);
  }

  /** No lost wakeup, with any number of workers and pushers and with spurious wakeups: while
      some worker sleeps unsignalled and no pusher is between its push and its signal, every
      queued task has its own worker on the way. */
  lemma NoLostWakeup<T(!new)>(s: State<T>)
    requires Reachable(s) && SomeoneSleeps(s)
    requires forall t :: 0 <= t < |s.pushers| ==> !s.pushers[t].PushWake?
    ensures |s.queue| <= Count(s.workers, Heading)
  {
    ReachableInv(s);
    CountNone(s.pushers, Waking);
  }

  /** Tasks start in the order they were pushed, each at most once, and a worker finishes
      exactly the tasks it started, in order, apart from the one it is running. */
  lemma StartedOnceInOrder<T(!new)>(s: State<T>)
    requires Reachable(s)
    ensures |s.started| <= |s.pushed| && s.queue == s.pushed[|s.started|..]
    ensures forall i :: 0 <= i < |s.started| ==> s.started[i].item == s.pushed[i]
    ensures |s.finished| == |s.workers|
    ensures forall t :: 0 <= t < |s.workers| ==>
              && s.finished[t] <= By(s.started, t)
              && |By(s.started, t)| - |s.finished[t]| == Bit(HasTask(s.workers[t]))
  {
    ReachableInv(s);
  }

  /** How many accesses in the log belong to threads k, k+1, ..., n-1. */
  ghost function Owned<T>(log: seq<Access<T>>, k: nat, n: nat): nat
    decreases n - k
  {
    if k >= n then 0 else |By(log, k)| + Owned(log, k + 1, n)
  }

  lemma {:induction false} OwnedAppend<T>(log: seq<Access<T>>, a: Access<T>, k: nat, n: nat)
    ensures Owned(log + [a], k, n) == Owned(log, k, n) + Bit(k <= a.who < n)
    decreases n - k
  {
    if k < n {
      ByAppend(log, a, k);
      OwnedAppend(log, a, k + 1, n);
    }
  }

  lemma {:induction false} OwnedNothing<T>(k: nat, n: nat)
    ensures Owned<T>([], k, n) == 0
    decreases n - k
  {
    if k < n {
      OwnedNothing<T>(k + 1, n);
    }
  }

  lemma {:induction false} OwnedAll<T>(log: seq<Access<T>>, n: nat)
    requires forall i :: 0 <= i < |log| ==> log[i].who < n
    ensures Owned(log, 0, n) == |log|
  {
    if log == [] {
      OwnedNothing<T>(0, n);
    } else {
      var m := |log| - 1;
      OwnedAll(log[..m], n);
      OwnedAppend(log[..m], log[m], 0, n);
      assert log[..m] + [log[m]] == log;
    }
  }

  function Length<T>(tasks: seq<T>): nat { |tasks| }

  lemma {:induction false} OwnedByWorkers<T>(s: State<T>, k: nat)
    requires Ledgers(s) && k <= |s.workers|
    ensures Owned(s.started, k, |s.workers|) == Count(s.workers[k..], HasTask) + Sum(s.finished[k..], Length)
    decreases |s.workers| - k
  {
    if k < |s.workers| {
      OwnedByWorkers(s, k + 1);
      assert s.workers[k..][1..] == s.workers[k + 1..];
      assert s.finished[k..][1..] == s.finished[k + 1..];
    }
  }

  /** Conservation: every pushed task is queued, running or finished. */
  lemma TasksConserved<T(!new)>(s: State<T>)
    requires Reachable(s)
    ensures |s.pushed| == |s.queue| + Count(s.workers, HasTask) + Sum(s.finished, Length)
  {
    ReachableInv(s);
    OwnedAll(s.started, |s.workers|);
    OwnedByWorkers(s, 0);
    assert s.workers[0..] == s.workers && s.finished[0..] == s.finished;
  }

  // ----- the pool always finishes its work -----

  function WorkLeft<T>(pc: WorkPc<T>): nat {
    match pc
    case WorkAsleep => 0
    case WorkReady => 1
    case WorkTest => 2
    case WorkCall => 3
    case WorkWoken => 3
    case WorkRun(_) => 4
    case WorkUnlock(_) => 5
  }

  function PushLeft<T>(pc: PushPc<T>): nat {
    match pc
    case PushCall => 0
    case PushUnlock => 1
    case PushWake => 5
    case PushAppend(_) => 14
  }

  ghost function Left<T>(s: State<T>): nat {
    8 * |s.queue| + Sum(s.workers, WorkLeft) + Sum(s.pushers, PushLeft)
  }

  /** A turn that starts no new `Push` and is not a spurious wakeup. */
  predicate Settling<T>(s: State<T>, turn: Turn<T>) {
    match turn
    case Worker(t) => t < |s.workers|
    case Pusher(t, _, _) => t < |s.pushers| && !s.pushers[t].PushCall?
    case SpuriousWake(_) => false
  }

  predicate Idle<T>(s: State<T>) {
    && (forall t :: 0 <= t < |s.workers| ==> s.workers[t].WorkAsleep?)
    && (forall t :: 0 <= t < |s.pushers| ==> s.pushers[t].PushCall?)
  }

  lemma WorkShortens<T>(s: State<T>, t: nat)
    requires t < |s.workers| == |s.finished| && (s.workers[t].WorkReady? ==> s.queue != [])
    requires !s.workers[t].WorkAsleep? && (s.workers[t].WorkCall? || s.workers[t].WorkWoken? ==> s.mutex == Free)
    ensures var s' := WorkStep(s, t); Left(s') < Left(s) && s'.pushed == s.pushed
  {
    var s' := WorkStep(s, t);
    SumUpdate(s.workers, t, s'.workers[t], WorkLeft);
    assert s'.workers == s.workers[t := s'.workers[t]];
  }

  lemma PushShortens<T>(s: State<T>, t: nat, task: T, wake: nat)
    requires t < |s.pushers| && !s.pushers[t].PushCall?
    ensures Left(PushStep(s, t, task, wake)) < Left(s)
  {
    var s' := PushStep(s, t, task, wake);
    SumUpdate(s.pushers, t, s'.pushers[t], PushLeft);
    assert s'.pushers == s.pushers[t := s'.pushers[t]];
    if s.pushers[t].PushWake? {
      var w := Signalled(s.workers, wake);
      if w < |s.workers| {
        SumUpdate(s.workers, w, WorkWoken, WorkLeft);
      }
    }
  }

  /** Unless all is quiet, some thread can make progress without new work arriving. */
  lemma SomeoneSettles<T>(s: State<T>, task: T) returns (turn: Turn<T>)
    requires Inv(s) && !Idle(s)
    ensures Settling(s, turn) && Left(Next(s, turn)) < Left(s)
  {
    match s.mutex
    case ByWorker(t) =>
      WorkShortens(s, t);
      turn := Worker(t);
    case ByPusher(t) =>
      PushShortens(s, t, task, 0);
      turn := Pusher(t, task, 0);
    case Free =>
      var t :| 0 <= t < |s.workers| && !s.workers[t].WorkAsleep?;
      WorkShortens(s, t);
      turn := Worker(t);
  }

  ghost predicate AllSettling<T>(s: State<T>, turns: seq<Turn<T>>)
    requires Inv(s)
    decreases |turns|
  {
    turns == [] ||
    (Settling(s, turns[0]) && (NextInv(s, turns[0]); AllSettling(Next(s, turns[0]), turns[1..])))
  }

  /** No task is ever stranded: from any state of any run, without another `Push` call and
      without spurious wakeups, the pool can bring every task pushed so far to its end. */
  lemma {:induction false} WorkCompletes<T>(s: State<T>, task: T) returns (turns: seq<Turn<T>>)
    requires Inv(s) && |s.workers| > 0
    ensures |turns| <= Left(s) && AllSettling(s, turns) && Inv(Exec(s, turns))
    ensures var s' := Exec(s, turns);
            && Idle(s') && s'.queue == [] && s.pushed <= s'.pushed
            && (forall t :: 0 <= t < |s'.workers| ==> s'.finished[t] == By(s'.started, t))
    decreases Left(s)
  {
    if Idle(s) {
      turns := [];
      QuietMeansDone(s);
    } else {
      var turn := SomeoneSettles(s, task);
      NextFixed(s, turn);
      NextInv(s, turn);
      var rest := WorkCompletes(Next(s, turn), task);
      turns := [turn] + rest;
      assert turns[1..] == rest;
    }
  }

  lemma NextFixed<T>(s: State<T>, turn: Turn<T>)
    requires Inv(s)
    ensures |Next(s, turn).workers| == |s.workers| && s.pushed <= Next(s, turn).pushed
  {
  }

  /** Nobody is stuck while there is work: with a worker in the pool and a task queued, some
      worker or pusher in the middle of its call can move. */
  lemma NeverStranded<T(!new)>(s: State<T>, task: T) returns (turn: Turn<T>)
    requires Reachable(s) && |s.workers| > 0 && s.queue != []
    ensures Inv(s)
    ensures Settling(s, turn) && Next(s, turn) != s
  {
    ReachableInv(s);
    if Idle(s) {
      assert s.workers[0].WorkAsleep?;
      CountNone(s.workers, Heading);
      CountNone(s.pushers, Waking);
    }
    turn := SomeoneSettles(s, task);
  }

  // ----- every way of finishing -----

  /** An effective turn that starts no new `Push` and is not a spurious wakeup. */
  ghost predicate Settles<T>(s: State<T>, turn: Turn<T>)
    requires Inv(s)
  {
    Settling(s, turn) && Next(s, turn) != s
  }

  ghost predicate AllSettle<T>(s: State<T>, turns: seq<Turn<T>>)
    requires Inv(s)
    decreases |turns|
  {
    turns == [] ||
    (Settles(s, turns[0]) && (NextInv(s, turns[0]); AllSettle(Next(s, turns[0]), turns[1..])))
  }

  lemma SettlesShortens<T>(s: State<T>, turn: Turn<T>)
    requires Inv(s) && Settles(s, turn)
    ensures Left(Next(s, turn)) < Left(s)
  {
    match turn
    case Worker(t) => WorkShortens(s, t);
    case Pusher(t, task, wake) => PushShortens(s, t, task, wake);
  }

  /** However the work goes on, as long as no new `Push` starts and nobody wakes for no reason, it
      takes at most as many effective statements as are left. */
  lemma {:induction false} SettlingIsBounded<T>(s: State<T>, turns: seq<Turn<T>>)
    requires Inv(s) && AllSettle(s, turns)
    ensures Inv(Exec(s, turns)) && |turns| + Left(Exec(s, turns)) <= Left(s)
    ensures |Exec(s, turns).workers| == |s.workers| && s.pushed <= Exec(s, turns).pushed
    decreases |turns|
  {
    if turns != [] {
      SettlesShortens(s, turns[0]);
      NextFixed(s, turns[0]);
      NextInv(s, turns[0]);
      SettlingIsBounded(Next(s, turns[0]), turns[1..]);
    }
  }

  /** With a worker in the pool, when all is quiet every task has been run to its end. */
  lemma QuietMeansDone<T>(s: State<T>)
    requires Inv(s) && |s.workers| > 0 && Idle(s)
    ensures s.queue == [] && forall t :: 0 <= t < |s.workers| ==> s.finished[t] == By(s.started, t)
  {
    assert s.workers[0].WorkAsleep?;
    CountNone(s.workers, Heading);
    CountNone(s.pushers, Waking);
  }

  /** A schedule of such statements that cannot be extended has brought every task pushed so far to
      its end, whichever schedule it is. */
  lemma EveryScheduleCompletes<T(!new)>(s: State<T>, turns: seq<Turn<T>>, task: T)
    requires Inv(s) && |s.workers| > 0 && AllSettle(s, turns)
    requires Inv(Exec(s, turns)) && forall turn :: !Settles(Exec(s, turns), turn)
    ensures |turns| <= Left(s)
    ensures var s' := Exec(s, turns);
            && Idle(s') && s'.queue == [] && s.pushed <= s'.pushed
            && (forall t :: 0 <= t < |s'.workers| ==> s'.finished[t] == By(s'.started, t))
  {
    var s' := Exec(s, turns);
    SettlingIsBounded(s, turns);
    if !Idle(s') {
      var turn := SomeoneSettles(s', task);
      assert Settles(s', turn);
    }
    QuietMeansDone(s');
  }
}
