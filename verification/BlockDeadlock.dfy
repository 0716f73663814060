/** When the blocking queue can get stuck: runs are built statement by statement that put every
    thread to sleep or take from an empty queue, and the conditions under which no run does. After
    a take from an empty queue C++ promises nothing, so about such runs no claim is made. */
module BlockDeadlock {
  import opened BlockProtocol

  // ----- nobody can move -----

  predicate AllAsleep<T>(s: State<T>) {
    && (forall t :: 0 <= t < |s.producers| ==> s.producers[t].PushAsleep?)
    && (forall t :: 0 <= t < |s.consumers| ==> s.consumers[t].PopAsleep?)
  }

  /** No thread can take a step. */
  ghost predicate Deadlocked<T(!new)>(s: State<T>) {
    forall turn: Turn<T> :: !Spurious(turn) ==> Next(s, turn) == s
  }

  /** Unless every thread sleeps or some consumer is in undefined behaviour, some thread can
      take a step. */
  lemma AwakeMoves<T>(s: State<T>, item: T) returns (turn: Turn<T>)
    requires Inv(s) && !AllAsleep(s) && !Faulted(s)
    ensures !Spurious(turn) && Next(s, turn) != s
  {
    match s.mutex
    case ByProducer(t) =>
      turn := Producer(t, item, 0);
      assert PushStep(s, t, item, 0).producers[t] != s.producers[t];
    case ByConsumer(t) =>
      turn := Consumer(t, 0);
      assert PopStep(s, t, 0).consumers[t] != s.consumers[t];
    case Free =>
      if t :| 0 <= t < |s.producers| && !s.producers[t].PushAsleep? {
        turn := Producer(t, item, 0);
        assert PushStep(s, t, item, 0).mutex != s.mutex;
      } else {
        var t :| 0 <= t < |s.consumers| && !s.consumers[t].PopAsleep?;
        turn := Consumer(t, 0);
        assert PopStep(s, t, 0).mutex != s.mutex;
      }
  }

  lemma SleepersDeadlock<T(!new)>(s: State<T>)
    requires AllAsleep(s)
    ensures Deadlocked(s)
  {
  }

  /** As long as no consumer has taken from an empty queue, nobody can move exactly when everybody
      sleeps. */
  lemma DeadlockMeansAllAsleep<T(!new)>(s: State<T>, item: T)
    requires Inv(s)
    ensures !Faulted(s) ==> (Deadlocked(s) <==> AllAsleep(s))
  {
    if !Faulted(s) && !AllAsleep(s) {
      var turn := AwakeMoves(s, item);
    }
  }

  // ----- building runs -----

  /** A run without spurious wakeups goes from one state to the other. */
  ghost predicate Leads<T(!new)>(s: State<T>, s': State<T>) {
    exists turns: seq<Turn<T>> :: NoSpurious(turns) && Exec(s, turns) == s'
  }

  /** A run can be cut anywhere. */
  lemma {:induction false} ExecSplit<T>(s: State<T>, turns: seq<Turn<T>>, k: nat)
    requires k <= |turns|
    ensures Exec(s, turns) == Exec(Exec(s, turns[..k]), turns[k..])
    decreases k
  {
    if k > 0 {
      assert turns[..k][1..] == turns[1..][..k - 1];
      ExecSplit(Next(s, turns[0]), turns[1..], k - 1);
    }
  }

  lemma LeadsNowhere<T(!new)>(s: State<T>)
    ensures Leads(s, s)
  {
    assert NoSpurious<T>([]) && Exec(s, []) == s;
  }

  lemma LeadsOn<T(!new)>(s: State<T>, m: State<T>, s': State<T>)
    requires Leads(s, m) && Leads(m, s')
    ensures Leads(s, s')
  {
    var a: seq<Turn<T>> :| NoSpurious(a) && Exec(s, a) == m;
    var b: seq<Turn<T>> :| NoSpurious(b) && Exec(m, b) == s';
    var turns := a + b;
    assert turns[..|a|] == a && turns[|a|..] == b;
    ExecSplit(s, turns, |a|);
    assert NoSpurious(turns);
  }

  lemma Then<T(!new)>(s: State<T>, m: State<T>, turn: Turn<T>)
    requires Leads(s, m) && !Spurious(turn)
    ensures Leads(s, Next(m, turn))
  {
    var one := [turn];
    assert one[1..] == [];
    assert Exec(Next(m, turn), one[1..]) == Next(m, turn);
    assert NoSpurious(one) && Exec(m, one) == Next(m, turn);
    LeadsOn(s, m, Next(m, turn));
  }

  /** The first three statements of a `push` by one producer while no other thread runs. */
  lemma PushAppends<T(!new)>(s: State<T>, t: nat, item: T)
    requires s.mutex == Free && |s.queue| < s.cap && t < |s.producers| && s.producers[t].PushCall?
    ensures Leads(s, s.(mutex := ByProducer(t), producers := s.producers[t := PushSignal],
                        queue := s.queue + [item], pushed := s.pushed + [item]))
  {
    var turn := Producer(t, item, 0);
    LeadsNowhere(s);
    Then(s, s, turn);
    var m := s.(mutex := ByProducer(t), producers := s.producers[t := PushTest(item)]);
    Then(s, m, turn);
    m := m.(producers := s.producers[t := PushReady(item)]);
    Then(s, m, turn);
  }

  /** The signal and the unlock at the end of a push. */
  lemma PushLeaves<T(!new)>(s: State<T>, m: State<T>, t: nat, turn: Turn<T>)
    requires Leads(s, m) && t < |m.producers| && m.producers[t].PushSignal? && turn.Producer? && turn.p == t
    ensures Leads(s, m.(mutex := Free, producers := m.producers[t := PushCall],
        consumers := if |m.queue| > HighWater(m.cap) then SignalConsumers(m.consumers, turn.wake) else m.consumers))
  {
    Then(s, m, turn);
    var n := Next(m, turn);
    Then(s, n, turn);
    assert n.producers[t := PushCall] == m.producers[t := PushCall];
  }

  /** A whole `push` by one producer while no other thread runs. */
  lemma PushCycle<T(!new)>(s: State<T>, t: nat, item: T, wake: nat)
    requires s.mutex == Free && |s.queue| < s.cap && t < |s.producers| && s.producers[t].PushCall?
    ensures Leads(s, s.(queue := s.queue + [item], pushed := s.pushed + [item],
        consumers := if |s.queue| + 1 > HighWater(s.cap) then SignalConsumers(s.consumers, wake) else s.consumers))
  {
    PushAppends(s, t, item);
    var turn := Producer(t, item, wake);
    var m := s.(mutex := ByProducer(t), producers := s.producers[t := PushSignal],
                queue := s.queue + [item], pushed := s.pushed + [item]);
    PushLeaves(s, m, t, turn);
    assert m.producers[t := PushCall] == s.producers;
  }

  /** The first three statements of a `pop` by one consumer while no other thread runs. */
  lemma PopTakes<T(!new)>(s: State<T>, t: nat)
    requires s.mutex == Free && |s.queue| > 0 && t < |s.consumers| && s.consumers[t].PopCall?
    ensures Leads(s, s.(mutex := ByConsumer(t), consumers := s.consumers[t := PopSignal(s.queue[0])],
                        queue := s.queue[1..], popped := s.popped + [s.queue[0]]))
  {
    var turn: Turn<T> := Consumer(t, 0);
    LeadsNowhere(s);
    Then(s, s, turn);
    var m := s.(mutex := ByConsumer(t), consumers := s.consumers[t := PopTest]);
    Then(s, m, turn);
    m := m.(consumers := s.consumers[t := PopReady]);
    Then(s, m, turn);
  }

  /** The signal and the unlock at the end of a pop. */
  lemma PopLeaves<T(!new)>(s: State<T>, m: State<T>, t: nat, turn: Turn<T>)
    requires Leads(s, m) && t < |m.consumers| && m.consumers[t].PopSignal? && turn.Consumer? && turn.c == t
    ensures Leads(s, m.(mutex := Free, consumers := m.consumers[t := PopCall],
        producers := if |m.queue| < LowWater(m.cap) then SignalProducers(m.producers, turn.wake) else m.producers))
  {
    Then(s, m, turn);
    var n := Next(m, turn);
    Then(s, n, turn);
    assert n.consumers[t := PopCall] == m.consumers[t := PopCall];
  }

  /** A whole `pop` by one consumer while no other thread runs. */
  lemma PopCycle<T(!new)>(s: State<T>, t: nat, wake: nat)
    requires s.mutex == Free && |s.queue| > 0 && t < |s.consumers| && s.consumers[t].PopCall?
    ensures Leads(s, s.(queue := s.queue[1..], popped := s.popped + [s.queue[0]],
        producers := if |s.queue| - 1 < LowWater(s.cap) then SignalProducers(s.producers, wake) else s.producers))
  {
    PopTakes(s, t);
    var turn: Turn<T> := Consumer(t, wake);
    var m := s.(mutex := ByConsumer(t), consumers := s.consumers[t := PopSignal(s.queue[0])],
                queue := s.queue[1..], popped := s.popped + [s.queue[0]]);
    PopLeaves(s, m, t, turn);
    assert m.consumers[t := PopCall] == s.consumers;
  }

  lemma ProducerSleeps<T(!new)>(s: State<T>, t: nat, item: T)
    requires s.mutex == Free && |s.queue| == s.cap && t < |s.producers| && s.producers[t].PushCall?
    ensures Leads(s, s.(producers := s.producers[t := PushAsleep(item)]))
  {
    var turn := Producer(t, item, 0);
    LeadsNowhere(s);
    Then(s, s, turn);
    Then(s, s.(mutex := ByProducer(t), producers := s.producers[t := PushTest(item)]), turn);
    assert s.producers[t := PushTest(item)][t := PushAsleep(item)] == s.producers[t := PushAsleep(item)];
  }

  lemma ConsumerSleeps<T(!new)>(s: State<T>, t: nat)
    requires s.mutex == Free && |s.queue| == 0 && t < |s.consumers| && s.consumers[t].PopCall?
    ensures Leads(s, s.(consumers := s.consumers[t := PopAsleep]))
  {
    var turn: Turn<T> := Consumer(t, 0);
    LeadsNowhere(s);
    Then(s, s, turn);
    Then(s, s.(mutex := ByConsumer(t), consumers := s.consumers[t := PopTest]), turn);
    assert s.consumers[t := PopTest][t := PopAsleep] == s.consumers[t := PopAsleep];
  }

  predicate NoProducerAsleep<T>(s: State<T>) { forall t :: 0 <= t < |s.producers| ==> !s.producers[t].PushAsleep? }
  predicate NoConsumerAsleep<T>(s: State<T>) { forall t :: 0 <= t < |s.consumers| ==> !s.consumers[t].PopAsleep? }

  /** Same threads, free mutex, n items in the queue. */
  ghost predicate Same<T>(s: State<T>, s': State<T>, n: nat) {
    && s'.cap == s.cap && s'.recheck == s.recheck && s'.mutex == s.mutex
    && s'.producers == s.producers && s'.consumers == s.consumers && |s'.queue| == n
  }

  /** Producer 0 can push n items while no signal finds a sleeper. */
  lemma {:induction false} Fill<T(!new)>(s: State<T>, item: T, n: nat) returns (s': State<T>)
    requires s.mutex == Free && |s.queue| + n <= s.cap
    requires |s.producers| > 0 && s.producers[0].PushCall?
    requires NoConsumerAsleep(s) || |s.queue| + n <= HighWater(s.cap)
    ensures Leads(s, s') && Same(s, s', |s.queue| + n)
    decreases n
  {
    if n == 0 {
      LeadsNowhere(s);
      s' := s;
    } else {
      PushCycle(s, 0, item, 0);
      var m := s.(queue := s.queue + [item], pushed := s.pushed + [item]);
      s' := Fill(m, item, n - 1);
      LeadsOn(s, m, s');
    }
  }

  /** Consumer t can pop the whole queue while no signal finds a sleeper. */
  lemma {:induction false} Drain<T(!new)>(s: State<T>, t: nat) returns (s': State<T>)
    requires s.mutex == Free && t < |s.consumers| && s.consumers[t].PopCall?
    requires NoProducerAsleep(s) || LowWater(s.cap) == 0
    ensures Leads(s, s') && Same(s, s', 0)
    decreases |s.queue|
  {
    if s.queue == [] {
      LeadsNowhere(s);
      s' := s;
    } else {
      PopCycle(s, t, 0);
      var m := s.(queue := s.queue[1..], popped := s.popped + [s.queue[0]]);
      s' := Drain(m, t);
      LeadsOn(s, m, s');
    }
  }

  lemma {:induction false} ProducersSleep<T(!new)>(s: State<T>, item: T, k: nat) returns (s': State<T>)
    requires s.mutex == Free && |s.queue| == s.cap && k <= |s.producers|
    requires forall t :: 0 <= t < k ==> s.producers[t].PushAsleep?
    requires forall t :: k <= t < |s.producers| ==> s.producers[t].PushCall?
    ensures Leads(s, s') && s' == s.(producers := s'.producers) && |s'.producers| == |s.producers|
    ensures forall t :: 0 <= t < |s'.producers| ==> s'.producers[t].PushAsleep?
    decreases |s.producers| - k
  {
    if k == |s.producers| {
      LeadsNowhere(s);
      s' := s;
    } else {
      ProducerSleeps(s, k, item);
      var m := s.(producers := s.producers[k := PushAsleep(item)]);
      s' := ProducersSleep(m, item, k + 1);
      LeadsOn(s, m, s');
    }
  }

  lemma {:induction false} ConsumersSleep<T(!new)>(s: State<T>, k: nat) returns (s': State<T>)
    requires s.mutex == Free && |s.queue| == 0 && k <= |s.consumers|
    requires forall t :: 0 <= t < k ==> s.consumers[t].PopAsleep?
    requires forall t :: k <= t < |s.consumers| ==> s.consumers[t].PopCall?
    ensures Leads(s, s') && s' == s.(consumers := s'.consumers) && |s'.consumers| == |s.consumers|
    ensures forall t :: 0 <= t < |s'.consumers| ==> s'.consumers[t].PopAsleep?
    decreases |s.consumers| - k
  {
    if k == |s.consumers| {
      LeadsNowhere(s);
      s' := s;
    } else {
      ConsumerSleeps(s, k);
      var m := s.(consumers := s.consumers[k := PopAsleep]);
      s' := ConsumersSleep(m, k + 1);
      LeadsOn(s, m, s');
    }
  }

  // ----- when the queue can get stuck -----

  /** Below a capacity of 3 the low-water mark is 0, so no producer is ever signalled: fill the
      queue, let every producer sleep, drain it, let every consumer sleep. */
  lemma SmallCapacityGetsStuck<T(!new)>(s0: State<T>, item: T) returns (s: State<T>)
    requires Init(s0) && s0.cap < 3 && |s0.producers| > 0 && |s0.consumers| > 0
    ensures Leads(s0, s) && AllAsleep(s)
  {
    var full := Fill(s0, item, s0.cap);
    var blocked := ProducersSleep(full, item, 0);
    LeadsOn(s0, full, blocked);
    var empty := Drain(blocked, 0);
    LeadsOn(s0, blocked, empty);
    s := ConsumersSleep(empty, 0);
    LeadsOn(s0, empty, s);
  }

  /** With a capacity of at least 3, no run puts all threads to sleep. */
  lemma NeverAllAsleep<T>(s0: State<T>, turns: seq<Turn<T>>)
    requires Init(s0) && |s0.producers| > 0 && |s0.consumers| > 0 && s0.cap >= 3
    ensures Inv(Exec(s0, turns)) && !AllAsleep(Exec(s0, turns))
  {
    ExecInv(s0, turns);
    AttendedInit(s0);
    AttendedExec(s0, turns);
  }

  lemma AsleepRun<T(!new)>(s0: State<T>, item: T) returns (turns: seq<Turn<T>>)
    requires Init(s0) && s0.cap < 3 && |s0.producers| > 0 && |s0.consumers| > 0
    ensures NoSpurious(turns) && AllAsleep(Exec(s0, turns)) && !Faulted(Exec(s0, turns))
    ensures Deadlocked(Exec(s0, turns))
  {
    var s := SmallCapacityGetsStuck(s0, item);
    SleepersDeadlock(s);
    turns :| NoSpurious(turns) && Exec(s0, turns) == s;
  }

  /** With at least one thread on each side, with either form of the test, whatever the scheduling
      and the spurious wakeups: as long as no consumer has taken from an empty queue, all threads
      never sleep at once, and so some thread can always move, exactly when the capacity is at
      least 3. */
  lemma DeadlockFreeIff<T(!new)>(s0: State<T>, item: T)
    requires Init(s0) && |s0.producers| > 0 && |s0.consumers| > 0
    ensures (forall turns: seq<Turn<T>> :: !AllAsleep(Exec(s0, turns))) <==> s0.cap >= 3
    ensures (forall turns: seq<Turn<T>> :: !Faulted(Exec(s0, turns)) ==> !Deadlocked(Exec(s0, turns))) <==> s0.cap >= 3
  {
    if s0.cap >= 3 {
      forall turns: seq<Turn<T>> ensures !AllAsleep(Exec(s0, turns)) {
        NeverAllAsleep(s0, turns);
      }
      forall turns: seq<Turn<T>> ensures !Faulted(Exec(s0, turns)) ==> !Deadlocked(Exec(s0, turns)) {
        NeverAllAsleep(s0, turns);
        DeadlockMeansAllAsleep(Exec(s0, turns), item);
      }
    } else {
      var turns := AsleepRun(s0, item);
      assert exists run: seq<Turn<T>> :: AllAsleep(Exec(s0, run));
      assert exists run: seq<Turn<T>> :: Deadlocked(Exec(s0, run)) && !Faulted(Exec(s0, run));
    }
  }

  /** With the loop in `pop`, no run ends in a deadlock, spurious wakeups or not, exactly when the
      capacity is at least 3. */
  lemma LoopDeadlockFreeIff<T(!new)>(s0: State<T>, item: T)
    requires Init(s0) && s0.recheck && |s0.producers| > 0 && |s0.consumers| > 0
    ensures (forall turns: seq<Turn<T>> :: !Deadlocked(Exec(s0, turns))) <==> s0.cap >= 3
  {
    if s0.cap >= 3 {
      forall turns: seq<Turn<T>> ensures !Deadlocked(Exec(s0, turns)) {
        NeverAllAsleep(s0, turns);
        RecheckNeverFaults(s0, turns);
        DeadlockMeansAllAsleep(Exec(s0, turns), item);
      }
    } else {
      var turns := AsleepRun(s0, item);
      assert exists run: seq<Turn<T>> :: Deadlocked(Exec(s0, run));
    }
  }

  // ----- when the single test is enough -----

  /** A consumer sleeps and a push past the high-water mark signals it. */
  lemma WakeFirstConsumer<T(!new)>(s0: State<T>, item: T) returns (s: State<T>)
    requires Init(s0) && s0.cap > 0 && |s0.producers| > 0 && |s0.consumers| > 1
    ensures Leads(s0, s) && s.mutex == Free && s.recheck == s0.recheck
    ensures s.producers == s0.producers && s.consumers == s0.consumers[0 := PopWoken]
  {
    ConsumerSleeps(s0, 0);
    var asleep := s0.(consumers := s0.consumers[0 := PopAsleep]);
    var high := Fill(asleep, item, HighWater(s0.cap));
    LeadsOn(s0, asleep, high);
    PushCycle(high, 0, item, 0);
    assert high.consumers[0 := PopWoken] == s0.consumers[0 := PopWoken];
    s := high.(queue := high.queue + [item], pushed := high.pushed + [item],
               consumers := high.consumers[0 := PopWoken]);
    LeadsOn(s0, high, s);
  }

  /** The woken consumer loses its item: another consumer empties the queue before it gets the
      mutex back. */
  lemma StolenWakeup<T(!new)>(s0: State<T>, item: T) returns (s: State<T>)
    requires Init(s0) && !s0.recheck && s0.cap > 0 && |s0.producers| > 0 && |s0.consumers| > 1
    ensures Leads(s0, s) && Faulted(s)
  {
    var woken := WakeFirstConsumer(s0, item);
    var empty := Drain(woken, 1);
    LeadsOn(s0, woken, empty);
    s := TakesFromEmpty(s0, empty, 0);
  }

  /** With the single test, a consumer woken while the queue is empty takes its front. */
  lemma TakesFromEmpty<T(!new)>(s0: State<T>, empty: State<T>, t: nat) returns (s: State<T>)
    requires Leads(s0, empty) && empty.mutex == Free && !empty.recheck && empty.queue == []
    requires t < |empty.consumers| && empty.consumers[t].PopWoken?
    ensures Leads(s0, s) && Faulted(s)
  {
    Then(s0, empty, Consumer(t, 0));
    var back := Next(empty, Consumer(t, 0));
    Then(s0, back, Consumer(t, 0));
    s := Next(back, Consumer(t, 0));
    assert s.consumers[t].PopFault?;
  }

  /** As written, with the single test and without spurious wakeups, `pop` never takes from an
      empty queue in any run exactly when there is at most one consumer, or nothing is ever
      pushed. */
  lemma SingleTestSafeIff<T(!new)>(s0: State<T>, item: T)
    requires Init(s0) && !s0.recheck
    ensures (forall turns: seq<Turn<T>> :: NoSpurious(turns) ==> !Faulted(Exec(s0, turns)))
            <==> |s0.consumers| <= 1 || |s0.producers| == 0 || s0.cap == 0
  {
    if NoThief(s0) {
      forall turns: seq<Turn<T>> | NoSpurious(turns) ensures !Faulted(Exec(s0, turns)) {
        WokenServedExec(s0, turns);
      }
    } else {
      var s := StolenWakeup(s0, item);
      var turns: seq<Turn<T>> :| NoSpurious(turns) && Exec(s0, turns) == s;
      assert Faulted(Exec(s0, turns));
    }
  }

  /** One spurious wakeup is enough to break the single test, even with a single consumer. */
  lemma SpuriousWakeupFaults<T(!new)>(s0: State<T>) returns (turns: seq<Turn<T>>)
    requires Init(s0) && !s0.recheck && |s0.consumers| > 0
    ensures Faulted(Exec(s0, turns))
  {
    ConsumerSleeps(s0, 0);
    var asleep := s0.(consumers := s0.consumers[0 := PopAsleep]);
    var sleep: seq<Turn<T>> :| NoSpurious(sleep) && Exec(s0, sleep) == asleep;
    var woken := Next(asleep, SpuriousConsumer(0));
    LeadsNowhere(woken);
    var s := TakesFromEmpty(woken, woken, 0);
    var rest: seq<Turn<T>> :| NoSpurious(rest) && Exec(woken, rest) == s;
    turns := sleep + ([SpuriousConsumer(0)] + rest);
    assert ([SpuriousConsumer(0)] + rest)[1..] == rest;
    assert turns[..|sleep|] == sleep && turns[|sleep|..] == [SpuriousConsumer(0)] + rest;
    ExecSplit(s0, turns, |sleep|);
  }

  /** As written, with any numbers of threads and without spurious wakeups: all threads never sleep
      at once exactly when the capacity is at least 3, and besides no consumer ever takes from an
      empty queue exactly when there is only one of them. */
  lemma SingleTestSoundIff<T(!new)>(s0: State<T>, item: T)
    requires Init(s0) && !s0.recheck && |s0.producers| > 0 && |s0.consumers| > 0
    ensures (forall turns: seq<Turn<T>> :: NoSpurious(turns) ==> !AllAsleep(Exec(s0, turns))) <==> s0.cap >= 3
    ensures (forall turns: seq<Turn<T>> :: NoSpurious(turns) ==> !AllAsleep(Exec(s0, turns)) && !Faulted(Exec(s0, turns)))
            <==> s0.cap >= 3 && |s0.consumers| == 1
  {
    SingleTestSafeIff(s0, item);
    if s0.cap < 3 {
      var turns := AsleepRun(s0, item);
      assert AllAsleep(Exec(s0, turns));
    } else {
      forall turns: seq<Turn<T>> ensures !AllAsleep(Exec(s0, turns)) {
        NeverAllAsleep(s0, turns);
      }
    }
  }
}
