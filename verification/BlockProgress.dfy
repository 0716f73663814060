/** Progress in the blocking queue, with either form of the test, a capacity of at least 3 and at
    least one thread on each side: from every reachable state in which no consumer is about to take
    from an empty queue, the work can go on, for both sides, and every sleeper can be woken,
    without any spurious wakeup. */
module BlockProgress {
  import opened BlockDeadlock
  import opened BlockProtocol

  /** A consumer has taken from an empty queue, or is about to. */
  predicate AtEmpty<T>(s: State<T>) {
    exists t :: 0 <= t < |s.consumers| &&
      (s.consumers[t].PopFault? || (s.consumers[t].PopReady? && |s.queue| == 0))
  }

  /** It never comes to that with the loop, nor, without spurious wakeups, with one consumer. */
  lemma NeverAtEmpty<T>(s0: State<T>, turns: seq<Turn<T>>)
    requires Init(s0)
    requires s0.recheck || (|s0.consumers| <= 1 && NoSpurious(turns))
    ensures !AtEmpty(Exec(s0, turns))
  {
    if s0.recheck {
      ReadyServedExec(s0, turns);
    } else {
      WokenServedExec(s0, turns);
    }
  }

  ghost predicate Good<T>(s: State<T>) {
    && Inv(s) && Attended(s) && !AtEmpty(s)
    && s.cap >= 3 && |s.producers| > 0 && |s.consumers| > 0
  }

  lemma GoodRun<T>(s0: State<T>, turns: seq<Turn<T>>)
    requires Init(s0) && s0.cap >= 3 && |s0.producers| > 0 && |s0.consumers| > 0
    requires !AtEmpty(Exec(s0, turns))
    ensures Good(Exec(s0, turns))
  {
    ExecInv(s0, turns);
    AttendedInit(s0);
    AttendedExec(s0, turns);
    ExecFixed(s0, turns);
  }

  lemma GoodLeads<T(!new)>(s: State<T>, s': State<T>)
    requires Good(s) && Leads(s, s') && !AtEmpty(s')
    ensures Good(s') && s'.cap == s.cap && |s'.producers| == |s.producers| && |s'.consumers| == |s.consumers|
  {
    var turns: seq<Turn<T>> :| NoSpurious(turns) && Exec(s, turns) == s';
    ExecInv(s, turns);
    AttendedExec(s, turns);
    ExecFixed(s, turns);
  }

  // ----- letting the mutex holder finish -----

  predicate PushWaits<T>(pc: PushPc<T>) { pc.PushAsleep? || pc.PushWoken? }
  predicate PopWaits<T>(pc: PopPc<T>) { pc.PopAsleep? || pc.PopWoken? }

  /** Nothing is taken back, and a thread inside its wait is still there, perhaps woken by now. */
  ghost predicate Kept<T>(s: State<T>, s': State<T>) {
    && s.pushed <= s'.pushed && s.popped <= s'.popped
    && |s'.producers| == |s.producers| && |s'.consumers| == |s.consumers|
    && (forall u :: 0 <= u < |s.producers| && PushWaits(s.producers[u]) ==> PushWaits(s'.producers[u]))
    && (forall u :: 0 <= u < |s.consumers| && PopWaits(s.consumers[u]) ==> PopWaits(s'.consumers[u]))
  }

  lemma KeptOn<T>(s: State<T>, m: State<T>, s': State<T>)
    requires Kept(s, m) && Kept(m, s')
    ensures Kept(s, s')
  {
  }

  function PushLeft<T>(pc: PushPc<T>): nat {
    match pc
    case PushTest(_) => 4
    case PushReady(_) => 3
    case PushSignal => 2
    case PushUnlock => 1
    case _ => 0
  }

  function PopLeft<T>(pc: PopPc<T>): nat {
    match pc
    case PopTest => 4
    case PopReady => 3
    case PopSignal(_) => 2
    case PopUnlock(_) => 1
    case _ => 0
  }

  /** How many statements the mutex holder still has to execute before it lets go, at most. */
  ghost function HolderLeft<T>(s: State<T>): nat
    requires Inv(s)
  {
    match s.mutex
    case Free => 0
    case ByProducer(t) => PushLeft(s.producers[t])
    case ByConsumer(t) => PopLeft(s.consumers[t])
  }

  lemma PushOn<T>(s: State<T>, t: nat, item: T)
    requires Good(s) && s.mutex == ByProducer(t)
    ensures var s' := PushStep(s, t, item, 0);
            && Inv(s') && !AtEmpty(s') && Kept(s, s') && (s'.mutex == Free || HolderLeft(s') < HolderLeft(s))
  {
    PushInv(s, t, item, 0);
  }

  lemma PopOn<T>(s: State<T>, t: nat)
    requires Good(s) && s.mutex == ByConsumer(t)
    ensures var s' := PopStep(s, t, 0);
            && Inv(s') && !AtEmpty(s') && Kept(s, s') && (s'.mutex == Free || HolderLeft(s') < HolderLeft(s))
  {
    PopInv(s, t, 0);
  }

  lemma {:induction false} FinishHolder<T(!new)>(s: State<T>, item: T) returns (s': State<T>)
    requires Good(s)
    ensures Leads(s, s') && Good(s') && s'.mutex == Free && Kept(s, s')
    decreases HolderLeft(s)
  {
    if s.mutex == Free {
      LeadsNowhere(s);
      s' := s;
    } else {
      var m := HolderStep(s, item);
      if m.mutex == Free {
        s' := m;
      } else {
        s' := FinishHolder(m, item);
        LeadsOn(s, m, s');
        KeptOn(s, m, s');
      }
    }
  }

  lemma HolderStep<T(!new)>(s: State<T>, item: T) returns (m: State<T>)
    requires Good(s) && s.mutex != Free
    ensures Leads(s, m) && Good(m) && Kept(s, m)
    ensures m.mutex == Free || HolderLeft(m) < HolderLeft(s)
  {
    LeadsNowhere(s);
    if s.mutex.ByProducer? {
      PushOn(s, s.mutex.p, item);
      Then(s, s, Producer(s.mutex.p, item, 0));
      m := PushStep(s, s.mutex.p, item, 0);
    } else {
      PopOn(s, s.mutex.c);
      Then(s, s, Consumer(s.mutex.c, 0));
      m := PopStep(s, s.mutex.c, 0);
    }
    GoodLeads(s, m);
  }

  // ----- a whole push or pop by a thread that is awake -----

  /** The item a producer that is about to lock, or was woken, is going to push. */
  function Carries<T>(pc: PushPc<T>, item: T): T {
    if pc.PushWoken? then pc.item else item
  }

  /** The state after producer t's push of v. */
  function Pushed<T>(s: State<T>, t: nat, v: T, wake: nat): State<T>
    requires t < |s.producers|
  {
    s.(queue := s.queue + [v], pushed := s.pushed + [v], producers := s.producers[t := PushCall],
       consumers := if |s.queue| + 1 > HighWater(s.cap) then SignalConsumers(s.consumers, wake) else s.consumers)
  }

  lemma ProducerPushes<T(!new)>(s: State<T>, t: nat, item: T, wake: nat) returns (s': State<T>)
    requires Good(s) && s.mutex == Free && |s.queue| < s.cap && t < |s.producers| && !s.producers[t].PushAsleep?
    ensures s' == Pushed(s, t, Carries(s.producers[t], item), wake)
    ensures Leads(s, s') && Good(s')
  {
    var v := Carries(s.producers[t], item);
    var turn := Producer(t, item, wake);
    assert !PushHolds(s.producers[t]);
    LeadsNowhere(s);
    Then(s, s, turn);
    var m := s.(mutex := ByProducer(t), producers := s.producers[t := PushTest(v)]);
    Then(s, m, turn);
    m := m.(producers := s.producers[t := PushReady(v)]);
    Then(s, m, turn);
    m := m.(producers := s.producers[t := PushSignal], queue := s.queue + [v], pushed := s.pushed + [v]);
    PushLeaves(s, m, t, turn);
    s' := Pushed(s, t, v, wake);
    GoodLeads(s, s');
  }

  /** The state after consumer t's pop. */
  function Popped<T>(s: State<T>, t: nat, wake: nat): State<T>
    requires t < |s.consumers| && |s.queue| > 0
  {
    s.(queue := s.queue[1..], popped := s.popped + [s.queue[0]], consumers := s.consumers[t := PopCall],
       producers := if |s.queue| - 1 < LowWater(s.cap) then SignalProducers(s.producers, wake) else s.producers)
  }

  lemma ConsumerPops<T(!new)>(s: State<T>, t: nat, wake: nat) returns (s': State<T>)
    requires Good(s) && s.mutex == Free && |s.queue| > 0 && t < |s.consumers| && !s.consumers[t].PopAsleep?
    ensures s' == Popped(s, t, wake)
    ensures Leads(s, s') && Good(s')
  {
    var turn: Turn<T> := Consumer(t, wake);
    assert !PopHolds(s.consumers[t]);
    LeadsNowhere(s);
    Then(s, s, turn);
    var m := s.(mutex := ByConsumer(t), consumers := s.consumers[t := PopReady]);
    if s.recheck || s.consumers[t].PopCall? {
      Then(s, m.(consumers := s.consumers[t := PopTest]), turn);
    }
    Then(s, m, turn);
    m := m.(consumers := s.consumers[t := PopSignal(s.queue[0])],
            queue := s.queue[1..], popped := s.popped + [s.queue[0]]);
    PopLeaves(s, m, t, turn);
    s' := Popped(s, t, wake);
    GoodLeads(s, s');
  }

  // ----- making room, making work -----

  ghost predicate Poppable<T>(s: State<T>) { s.mutex == Free && |s.queue| > 0 && AwakeConsumer(s) }
  ghost predicate Pushable<T>(s: State<T>) { s.mutex == Free && |s.queue| < s.cap && AwakeProducer(s) }

  /** Without the mutex nobody is about to signal, so the water marks leave one side to run. */
  lemma OneSideRuns<T>(s: State<T>)
    requires Good(s) && s.mutex == Free
    ensures Poppable(s) || Pushable(s)
  {
    assert forall t :: 0 <= t < |s.producers| ==> !PushHolds(s.producers[t]);
    assert forall t :: 0 <= t < |s.consumers| ==> !PopHolds(s.consumers[t]);
    assert !SignallingProducer(s) && !SignallingConsumer(s);
  }

  /** By pushes alone an item and an awake consumer can be had. */
  lemma {:induction false} MakePoppable<T(!new)>(s: State<T>, item: T) returns (s': State<T>)
    requires Good(s) && s.mutex == Free
    ensures Leads(s, s') && Good(s') && Poppable(s') && s'.popped == s.popped
    ensures |s'.producers| == |s.producers|
    ensures forall u :: 0 <= u < |s.producers| && s.producers[u].PushAsleep? ==> s'.producers[u].PushAsleep?
    decreases s.cap - |s.queue|
  {
    if Poppable(s) {
      LeadsNowhere(s);
      s' := s;
    } else {
      OneSideRuns(s);
      var t :| 0 <= t < |s.producers| && !s.producers[t].PushAsleep?;
      var m := ProducerPushes(s, t, item, 0);
      s' := MakePoppable(m, item);
      LeadsOn(s, m, s');
    }
  }

  /** By pops alone room and an awake producer can be had. */
  lemma {:induction false} MakePushable<T(!new)>(s: State<T>) returns (s': State<T>)
    requires Good(s) && s.mutex == Free
    ensures Leads(s, s') && Good(s') && Pushable(s') && s'.pushed == s.pushed
    ensures |s'.consumers| == |s.consumers|
    ensures forall u :: 0 <= u < |s.consumers| && s.consumers[u].PopAsleep? ==> s'.consumers[u].PopAsleep?
    decreases |s.queue|
  {
    if Pushable(s) {
      LeadsNowhere(s);
      s' := s;
    } else {
      OneSideRuns(s);
      var t :| 0 <= t < |s.consumers| && !s.consumers[t].PopAsleep?;
      var m := ConsumerPops(s, t, 0);
      s' := MakePushable(m);
      LeadsOn(s, m, s');
    }
  }

  /** From every reachable state in which no consumer is about to take from an empty queue, some run
      completes a further push, and some run a further pop. */
  lemma WorkGoesOn<T(!new)>(s0: State<T>, turns: seq<Turn<T>>, item: T) returns (a: State<T>, b: State<T>)
    requires Init(s0) && s0.cap >= 3 && |s0.producers| > 0 && |s0.consumers| > 0 && !AtEmpty(Exec(s0, turns))
    ensures var s := Exec(s0, turns);
            && Leads(s, a) && s.pushed < a.pushed
            && Leads(s, b) && s.popped < b.popped
  {
    var s := Exec(s0, turns);
    GoodRun(s0, turns);
    var m := FinishHolder(s, item);

    var room := MakePushable(m);
    LeadsOn(s, m, room);
    var p :| 0 <= p < |room.producers| && !room.producers[p].PushAsleep?;
    a := ProducerPushes(room, p, item, 0);
    LeadsOn(s, room, a);

    var work := MakePoppable(m, item);
    LeadsOn(s, m, work);
    var c :| 0 <= c < |work.consumers| && !work.consumers[c].PopAsleep?;
    b := ConsumerPops(work, c, 0);
    LeadsOn(s, work, b);
  }

  // ----- waking a sleeper -----

  /** An awake consumer pops until it signals, and its signal picks producer u. */
  lemma {:induction false} PopUntilSignal<T(!new)>(s: State<T>, u: nat) returns (s': State<T>)
    requires Good(s) && Poppable(s) && u < |s.producers| && s.producers[u].PushAsleep?
    ensures Leads(s, s') && u < |s'.producers| && s'.producers[u].PushWoken?
    decreases |s.queue|
  {
    var t :| 0 <= t < |s.consumers| && !s.consumers[t].PopAsleep?;
    var m := ConsumerPops(s, t, u);
    if |m.queue| < LowWater(s.cap) {
      s' := m;
    } else {
      assert !m.consumers[t].PopAsleep?;
      s' := PopUntilSignal(m, u);
      LeadsOn(s, m, s');
    }
  }

  /** An awake producer pushes until it signals, and its signal picks consumer u. */
  lemma {:induction false} PushUntilSignal<T(!new)>(s: State<T>, item: T, u: nat) returns (s': State<T>)
    requires Good(s) && Pushable(s) && u < |s.consumers| && s.consumers[u].PopAsleep?
    ensures Leads(s, s') && u < |s'.consumers| && s'.consumers[u].PopWoken?
    decreases s.cap - |s.queue|
  {
    var t :| 0 <= t < |s.producers| && !s.producers[t].PushAsleep?;
    var m := ProducerPushes(s, t, item, u);
    if |m.queue| > HighWater(s.cap) {
      s' := m;
    } else {
      assert !m.producers[t].PushAsleep?;
      s' := PushUntilSignal(m, item, u);
      LeadsOn(s, m, s');
    }
  }

  /** Whichever producer sleeps in such a state, some run signals it. */
  lemma SleepingProducerWakes<T(!new)>(s0: State<T>, turns: seq<Turn<T>>, item: T, u: nat) returns (s': State<T>)
    requires Init(s0) && s0.cap >= 3 && |s0.producers| > 0 && |s0.consumers| > 0 && !AtEmpty(Exec(s0, turns))
    requires u < |Exec(s0, turns).producers| && Exec(s0, turns).producers[u].PushAsleep?
    ensures Leads(Exec(s0, turns), s') && u < |s'.producers| && s'.producers[u].PushWoken?
  {
    var s := Exec(s0, turns);
    GoodRun(s0, turns);
    s' := FinishHolder(s, item);
    if s'.producers[u].PushAsleep? {
      var work := MakePoppable(s', item);
      LeadsOn(s, s', work);
      s' := PopUntilSignal(work, u);
      LeadsOn(s, work, s');
    }
  }

  /** And whichever consumer sleeps. */
  lemma SleepingConsumerWakes<T(!new)>(s0: State<T>, turns: seq<Turn<T>>, item: T, u: nat) returns (s': State<T>)
    requires Init(s0) && s0.cap >= 3 && |s0.producers| > 0 && |s0.consumers| > 0 && !AtEmpty(Exec(s0, turns))
    requires u < |Exec(s0, turns).consumers| && Exec(s0, turns).consumers[u].PopAsleep?
    ensures Leads(Exec(s0, turns), s') && u < |s'.consumers| && s'.consumers[u].PopWoken?
  {
    var s := Exec(s0, turns);
    GoodRun(s0, turns);
    s' := FinishHolder(s, item);
    if s'.consumers[u].PopAsleep? {
      var room := MakePushable(s');
      LeadsOn(s, s', room);
      s' := PushUntilSignal(room, item, u);
      LeadsOn(s, room, s');
    }
  }
}
