/** The thread pool object: the task queue, the mutex and the workers' states are updated in
    place, one statement of one thread at a time. Each turn is proved to be the step of
    `PoolProtocol`. */
module ThreadPool {
  import opened Ledger
  import opened PoolProtocol

  class ThreadPool<T> {
    var tasks: seq<T>
    var mutex: Holder
    var workers: seq<WorkPc<T>>
    var pushers: seq<PushPc<T>>
    var finished: seq<seq<T>>
    ghost var pushed: seq<T>
    ghost var started: seq<Access<T>>

    ghost function View(): State<T>
      reads this
    {
      State(tasks, mutex, workers, pushers, pushed, started, finished)
    }

    ghost predicate Valid()
      reads this
    {
      Inv(View())
    }

    constructor (num: nat, nPushers: nat)
      ensures Init(View()) && Valid()
      ensures |workers| == num && |pushers| == nPushers
    {
      tasks := [];
      mutex := Free;
      workers := seq(num, _ => WorkCall);
      pushers := seq(nPushers, _ => PushCall);
      finished := seq(num, _ => []);
      pushed, started := [], [];
      new;
      InitInv(View());
    }

    /** The next statement of worker t inside `HandlerTask`. */
    method HandlerTurn(t: nat)
      requires t < |workers| == |finished|
      requires workers[t].WorkReady? ==> tasks != []
      modifies this
      ensures View() == WorkStep(old(View()), t)
      ensures old(workers[t]).WorkReady? ==> tasks == old(tasks)[1..] && workers[t] == WorkUnlock(old(tasks)[0])
      ensures old(workers[t]).WorkRun? ==> finished == old(finished)[t := old(finished)[t] + [old(workers[t]).task]]
    {
      match workers[t]
      case WorkCall =>
        if mutex == Free {
          mutex := ByWorker(t);
          workers := workers[t := WorkTest];
        }
      case WorkTest =>
        if |tasks| == 0 {
          mutex := Free;
          workers := workers[t := WorkAsleep];
        } else {
          workers := workers[t := WorkReady];
        }
      case WorkAsleep =>
      case WorkWoken =>
        if mutex == Free {
          mutex := ByWorker(t);
          workers := workers[t := WorkTest];
        }
      case WorkReady =>
        var task := tasks[0];
        tasks := tasks[1..];
        started := started + [Access(t, task)];
        workers := workers[t := WorkUnlock(task)];
      case WorkUnlock(task) =>
        mutex := Free;
        workers := workers[t := WorkRun(task)];
      case WorkRun(task) =>
        finished := finished[t := finished[t] + [task]];
        workers := workers[t := WorkCall];
    }

    /** The next statement of pusher t, which is calling `Push(task)` whenever it is at its call. */
    method PushTurn(t: nat, task: T, wake: nat)
      requires t < |pushers|
      modifies this
      ensures View() == PushStep(old(View()), t, task, wake)
      ensures old(pushers[t]).PushCall? && old(mutex) == Free ==> pushers[t] == PushAppend(task)
      ensures old(pushers[t]).PushAppend? ==> tasks == old(tasks) + [old(pushers[t]).task]
    {
      match pushers[t]
      case PushCall =>
        if mutex == Free {
          mutex := ByPusher(t);
          pushers := pushers[t := PushAppend(task)];
        }
      case PushAppend(v) =>
        tasks := tasks + [v];
        pushed := pushed + [v];
        pushers := pushers[t := PushWake];
      case PushWake =>
        workers := Signal(workers, wake);
        pushers := pushers[t := PushUnlock];
      case PushUnlock =>
        mutex := Free;
        pushers := pushers[t := PushCall];
    }

    /** Executes a schedule. */
    method Run(turns: seq<Turn<T>>)
      requires Valid()
      modifies this
      ensures Valid()
      ensures View() == Exec(old(View()), turns)
    {
      ghost var s0 := View();
      for i := 0 to |turns|
        invariant Valid()
        invariant Exec(View(), turns[i..]) == Exec(s0, turns)
      {
        assert turns[i..][0] == turns[i] && turns[i..][1..] == turns[i + 1..];
        ghost var s := View();
        NextInv(s, turns[i]);
        match turns[i] {
          case Worker(t) =>
            if t < |workers| {
              HandlerTurn(t);
            }
          case Pusher(t, task, wake) =>
            if t < |pushers| {
              PushTurn(t, task, wake);
            }
          case SpuriousWake(t) =>
            if t < |workers| && workers[t].WorkAsleep? {
              workers := workers[t := WorkWoken];
            }
        }
        assert View() == Next(s, turns[i]);
      }
    }
  }
}
