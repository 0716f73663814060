/** The blocking queue object: queue, mutex and waiting threads are updated in place, one
    statement of one thread at a time. Each turn is proved to be the step of `BlockProtocol`. */
module BlockQueue {
  import opened BlockProtocol
  import opened Wrappers

  class BlockQueue<T> {
    const maxcap: nat
    const lowWater: nat
    const highWater: nat
    const recheck: bool
    var queue: seq<T>
    var mutex: Holder
    var producers: seq<PushPc<T>>
    var consumers: seq<PopPc<T>>
    ghost var pushed: seq<T>
    ghost var popped: seq<T>

    ghost function View(): State<T>
      reads this
    {
      State(maxcap, recheck, queue, mutex, producers, consumers, pushed, popped)
    }

    ghost predicate Valid()
      reads this
    {
      && lowWater == LowWater(maxcap) && highWater == HighWater(maxcap)
      && Inv(View())
    }

    constructor (maxcap: nat, recheck: bool, nProducers: nat, nConsumers: nat)
      ensures this.maxcap == maxcap && this.recheck == recheck
      ensures Init(View()) && Valid()
      ensures |producers| == nProducers && |consumers| == nConsumers
    {
      this.maxcap := maxcap;
      lowWater := maxcap / 3;
      highWater := maxcap * 2 / 3;
      this.recheck := recheck;
      queue := [];
      mutex := Free;
      producers := seq(nProducers, _ => PushCall);
      consumers := seq(nConsumers, _ => PopCall);
      pushed, popped := [], [];
    }

    /** The next statement of producer t, which is calling `push(item)` whenever it is at its call. */
    method PushTurn(t: nat, item: T, wake: nat)
      requires Valid() && t < |producers|
      modifies this
      ensures View() == PushStep(old(View()), t, item, wake)
      ensures Valid()
      ensures old(producers[t]).PushCall? && old(mutex) == Free ==> producers[t] == PushTest(item)
      ensures old(producers[t]).PushReady? ==> queue == old(queue) + [old(producers[t]).item]
    {
      PushInv(View(), t, item, wake);
      match producers[t]
      case PushCall =>
        if mutex == Free {
          mutex := ByProducer(t);
          producers := producers[t := PushTest(item)];
        }
      case PushTest(v) =>
        if |queue| == maxcap {
          mutex := Free;
          producers := producers[t := PushAsleep(v)];
        } else {
          producers := producers[t := PushReady(v)];
        }
      case PushAsleep(_) =>
      case PushWoken(v) =>
        if mutex == Free {
          mutex := ByProducer(t);
          producers := producers[t := PushTest(v)];
        }
      case PushReady(v) =>
        queue := queue + [v];
        pushed := pushed + [v];
        producers := producers[t := PushSignal];
      case PushSignal =>
        if |queue| > highWater {
          consumers := SignalConsumers(consumers, wake);
        }
        producers := producers[t := PushUnlock];
      case PushUnlock =>
        mutex := Free;
        producers := producers[t := PushCall];
    }

    /** The next statement of consumer t; `out` is what its `pop` returns when this statement is
        the last one of the call. */
    method PopTurn(t: nat, wake: nat) returns (out: Option<T>)
      requires Valid() && t < |consumers|
      modifies this
      ensures View() == PopStep(old(View()), t, wake)
      ensures Valid()
      ensures old(consumers[t]).PopReady? && old(queue) != [] ==>
                queue == old(queue)[1..] && consumers[t] == PopSignal(old(queue)[0])
      ensures out == if old(consumers[t]).PopUnlock? then Some(old(consumers[t]).out) else None
    {
      PopInv(View(), t, wake);
      out := None;
      match consumers[t]
      case PopCall =>
        if mutex == Free {
          mutex := ByConsumer(t);
          consumers := consumers[t := PopTest];
        }
      case PopTest =>
        if |queue| == 0 {
          mutex := Free;
          consumers := consumers[t := PopAsleep];
        } else {
          consumers := consumers[t := PopReady];
        }
      case PopAsleep =>
      case PopWoken =>
        if mutex == Free {
          mutex := ByConsumer(t);
          consumers := consumers[t := if recheck then PopTest else PopReady];
        }
      case PopReady =>
        if queue == [] {
          consumers := consumers[t := PopFault];
        } else {
          var v := queue[0];
          queue := queue[1..];
          popped := popped + [v];
          consumers := consumers[t := PopSignal(v)];
        }
      case PopSignal(v) =>
        if |queue| < lowWater {
          producers := SignalProducers(producers, wake);
        }
        consumers := consumers[t := PopUnlock(v)];
      case PopUnlock(v) =>
        mutex := Free;
        consumers := consumers[t := PopCall];
        out := Some(v);
      case PopFault =>
    }

    /** Executes a schedule. */
    method Run(turns: seq<Turn<T>>)
      requires Valid()
      modifies this
      ensures Valid()
      ensures View() == Exec(old(View()), turns)
    {
      ghost var s0 := View();
      for i := 0 to |turns|
        invariant Valid()
        invariant Exec(View(), turns[i..]) == Exec(s0, turns)
      {
        assert turns[i..][0] == turns[i] && turns[i..][1..] == turns[i + 1..];
        ghost var s := View();
        NextInv(s, turns[i]);
        match turns[i] {
          case Producer(t, item, wake) =>
            if t < |producers| {
              PushTurn(t, item, wake);
            }
          case Consumer(t, wake) =>
            if t < |consumers| {
              var _ := PopTurn(t, wake);
            }
          case SpuriousProducer(t) =>
            if t < |producers| && producers[t].PushAsleep? {
              producers := producers[t := PushWoken(producers[t].item)];
            }
          case SpuriousConsumer(t) =>
            if t < |consumers| && consumers[t].PopAsleep? {
              consumers := consumers[t := PopWoken];
            }
        }
        assert View() == Next(s, turns[i]);
      }
    }
  }
}
