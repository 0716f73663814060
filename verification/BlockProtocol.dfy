/** The blocking queue with water marks as an interleaving of atomic statements: one mutex, one
    condition variable for consumers and one for producers, with Mesa semantics. A signalled
    thread is merely runnable: it competes for the mutex again before `pthread_cond_wait`
    returns, and meanwhile anything can happen to the queue.

    `recheck` chooses how `pop` tests for emptiness: true is a loop, as `push` has; false is the
    single `if` the source has. */
module BlockProtocol {
  import opened Counting

  datatype Holder = Free | ByProducer(p: nat) | ByConsumer(c: nat)

  datatype PushPc<T> =
    | PushCall               // about to lock
    | PushTest(item: T)      // about to test for a full queue
    | PushAsleep(item: T)    // in pthread_cond_wait, not signalled
    | PushWoken(item: T)     // in pthread_cond_wait, about to take the mutex back
    | PushReady(item: T)     // about to append
    | PushSignal             // about to compare with the high-water mark
    | PushUnlock             // about to unlock

  datatype PopPc<T> =
    | PopCall                // about to lock
    | PopTest                // about to test for an empty queue
    | PopAsleep              // in pthread_cond_wait, not signalled
    | PopWoken               // in pthread_cond_wait, about to take the mutex back
    | PopReady               // about to take the front
    | PopSignal(out: T)      // about to compare with the low-water mark
    | PopUnlock(out: T)      // about to unlock
    | PopFault               // took the front of an empty queue: undefined behaviour

  datatype State<T> = State(
    cap: nat,
    recheck: bool,
    queue: seq<T>,
    mutex: Holder,
    producers: seq<PushPc<T>>,
    consumers: seq<PopPc<T>>,
    pushed: seq<T>,
    popped: seq<T>)

  /** `wake` says which sleeper a signal picks, if that thread does sleep. The last two turns
      are spurious wakeups. */
  datatype Turn<T> =
    | Producer(p: nat, item: T, wake: nat)
    | Consumer(c: nat, wake: nat)
    | SpuriousProducer(p: nat)
    | SpuriousConsumer(c: nat)

  function LowWater(cap: nat): nat { cap / 3 }
  function HighWater(cap: nat): nat { cap * 2 / 3 }

  ghost predicate Init<T>(s: State<T>) {
    && s.queue == [] && s.mutex == Free
    && (forall t :: 0 <= t < |s.producers| ==> s.producers[t] == PushCall)
    && (forall t :: 0 <= t < |s.consumers| ==> s.consumers[t] == PopCall)
    && s.pushed == [] && s.popped == []
  }

  // ----- signals: one sleeper is woken, any one, if there is a sleeper at all -----

  predicate PushSleeps<T>(pc: PushPc<T>) { pc.PushAsleep? }
  predicate PopSleeps<T>(pc: PopPc<T>) { pc.PopAsleep? }

  /** The sleeper that a signal picks, or the number of threads if nobody sleeps. */
  function PickProducer<T>(ps: seq<PushPc<T>>, wake: nat): (t: nat)
    ensures t <= |ps| && (t < |ps| ==> ps[t].PushAsleep?)
    ensures t == |ps| ==> forall u :: 0 <= u < |ps| ==> !ps[u].PushAsleep?
  {
    if wake < |ps| && ps[wake].PushAsleep? then wake else First(ps, PushSleeps)
  }

  function PickConsumer<T>(cs: seq<PopPc<T>>, wake: nat): (t: nat)
    ensures t <= |cs| && (t < |cs| ==> cs[t].PopAsleep?)
    ensures t == |cs| ==> forall u :: 0 <= u < |cs| ==> !cs[u].PopAsleep?
  {
    if wake < |cs| && cs[wake].PopAsleep? then wake else First(cs, PopSleeps)
  }

  /** A signal leaves no queue of waiters fully asleep. */
  function SignalProducers<T>(ps: seq<PushPc<T>>, wake: nat): (ps': seq<PushPc<T>>)
    ensures |ps'| == |ps|
    ensures |ps| > 0 ==> exists t :: 0 <= t < |ps'| && !ps'[t].PushAsleep?
  {
    var t := PickProducer(ps, wake);
    var ps' := if t < |ps| then ps[t := PushWoken(ps[t].item)] else ps;
    assert |ps| > 0 ==> !ps'[if t < |ps| then t else 0].PushAsleep?;
    ps'
  }

  function SignalConsumers<T>(cs: seq<PopPc<T>>, wake: nat): (cs': seq<PopPc<T>>)
    ensures |cs'| == |cs|
    ensures |cs| > 0 ==> exists t :: 0 <= t < |cs'| && !cs'[t].PopAsleep?
  {
    var t := PickConsumer(cs, wake);
    var cs' := if t < |cs| then cs[t := PopWoken] else cs;
    assert |cs| > 0 ==> !cs'[if t < |cs| then t else 0].PopAsleep?;
    cs'
  }

  // ----- one statement of one thread -----

  function PushStep<T>(s: State<T>, t: nat, item: T, wake: nat): State<T>
    requires t < |s.producers|
  {
    match s.producers[t]
    case PushCall =>
      if s.mutex == Free then s.(mutex := ByProducer(t), producers := s.producers[t := PushTest(item)]) else s
    case PushTest(v) =>
      if |s.queue| == s.cap then s.(mutex := Free, producers := s.producers[t := PushAsleep(v)])
      else s.(producers := s.producers[t := PushReady(v)])
    case PushAsleep(_) => s
    case PushWoken(v) =>
      if s.mutex == Free then s.(mutex := ByProducer(t), producers := s.producers[t := PushTest(v)]) else s
    case PushReady(v) =>
      s.(queue := s.queue + [v], pushed := s.pushed + [v], producers := s.producers[t := PushSignal])
    case PushSignal =>
      s.(consumers := if |s.queue| > HighWater(s.cap) then SignalConsumers(s.consumers, wake) else s.consumers,
         producers := s.producers[t := PushUnlock])
    case PushUnlock =>
      s.(mutex := Free, producers := s.producers[t := PushCall])
  }

  function PopStep<T>(s: State<T>, t: nat, wake: nat): State<T>
    requires t < |s.consumers|
  {
    match s.consumers[t]
    case PopCall =>
      if s.mutex == Free then s.(mutex := ByConsumer(t), consumers := s.consumers[t := PopTest]) else s
    case PopTest =>
      if |s.queue| == 0 then s.(mutex := Free, consumers := s.consumers[t := PopAsleep])
      else s.(consumers := s.consumers[t := PopReady])
    case PopAsleep => s
    case PopWoken =>
      if s.mutex == Free then
        s.(mutex := ByConsumer(t), consumers := s.consumers[t := if s.recheck then PopTest else PopReady])
      else s
    case PopReady =>
      if s.queue == [] then s.(consumers := s.consumers[t := PopFault])
      else
        s.(queue := s.queue[1..], popped := s.popped + [s.queue[0]],
           consumers := s.consumers[t := PopSignal(s.queue[0])])
    case PopSignal(v) =>
      s.(producers := if |s.queue| < LowWater(s.cap) then SignalProducers(s.producers, wake) else s.producers,
         consumers := s.consumers[t := PopUnlock(v)])
    case PopUnlock(_) =>
      s.(mutex := Free, consumers := s.consumers[t := PopCall])
    case PopFault => s
  }

  function Next<T>(s: State<T>, turn: Turn<T>): State<T> {
    match turn
    case Producer(t, item, wake) => if t < |s.producers| then PushStep(s, t, item, wake) else s
    case Consumer(t, wake) => if t < |s.consumers| then PopStep(s, t, wake) else s
    case SpuriousProducer(t) =>
      if t < |s.producers| && s.producers[t].PushAsleep? then
        s.(producers := s.producers[t := PushWoken(s.producers[t].item)])
      else s
    case SpuriousConsumer(t) =>
      if t < |s.consumers| && s.consumers[t].PopAsleep? then
        s.(consumers := s.consumers[t := PopWoken])
      else s
  }

  function Exec<T>(s: State<T>, turns: seq<Turn<T>>): State<T>
    decreases |turns|
  {
    if turns == [] then s else Exec(Next(s, turns[0]), turns[1..])
  }

  predicate Spurious<T>(turn: Turn<T>) { turn.SpuriousProducer? || turn.SpuriousConsumer? }

  predicate NoSpurious<T>(turns: seq<Turn<T>>) {
    forall i :: 0 <= i < |turns| ==> !Spurious(turns[i])
  }

  // ----- safety -----

  predicate PushHolds<T>(pc: PushPc<T>) { pc.PushTest? || pc.PushReady? || pc.PushSignal? || pc.PushUnlock? }
  predicate PopHolds<T>(pc: PopPc<T>) { pc.PopTest? || pc.PopReady? || pc.PopSignal? || pc.PopUnlock? || pc.PopFault? }

  ghost predicate Exclusive<T>(s: State<T>) {
    && (s.mutex.ByProducer? ==> s.mutex.p < |s.producers|)
    && (s.mutex.ByConsumer? ==> s.mutex.c < |s.consumers|)
    && (forall t :: 0 <= t < |s.producers| ==> (PushHolds(s.producers[t]) <==> s.mutex == ByProducer(t)))
    && (forall t :: 0 <= t < |s.consumers| ==> (PopHolds(s.consumers[t]) <==> s.mutex == ByConsumer(t)))
  }

  ghost predicate Contents<T>(s: State<T>) {
    && s.pushed == s.popped + s.queue
    && |s.queue| <= s.cap
    && (forall t :: 0 <= t < |s.producers| && s.producers[t].PushReady? ==> |s.queue| < s.cap)
    && (forall t :: 0 <= t < |s.producers| && s.producers[t].PushSignal? ==> |s.queue| > 0)
  }

  ghost predicate Inv<T>(s: State<T>) {
    Exclusive(s) && Contents(s)
  }

  lemma PushInv<T>(s: State<T>, t: nat, item: T, wake: nat)
    requires Inv(s) && t < |s.producers|
    ensures Inv(PushStep(s, t, item, wake))
  {
  }

  lemma PopInv<T>(s: State<T>, t: nat, wake: nat)
    requires Inv(s) && t < |s.consumers|
    ensures Inv(PopStep(s, t, wake))
  {
  }

  lemma NextInv<T>(s: State<T>, turn: Turn<T>)
    requires Inv(s)
    ensures Inv(Next(s, turn))
  {
    match turn
    case Producer(t, item, wake) => if t < |s.producers| { PushInv(s, t, item, wake); }
    case Consumer(t, wake) => if t < |s.consumers| { PopInv(s, t, wake); }
    case SpuriousProducer(_) =>
    case SpuriousConsumer(_) =>
  }

  lemma {:induction false} ExecInv<T>(s: State<T>, turns: seq<Turn<T>>)
    requires Inv(s)
    ensures Inv(Exec(s, turns))
    decreases |turns|
  {
    if turns != [] {
      NextInv(s, turns[0]);
      ExecInv(Next(s, turns[0]), turns[1..]);
    }
  }

  /** The same queue and the same numbers of threads. */
  predicate Alike<T>(s: State<T>, s': State<T>) {
    && s'.cap == s.cap && s'.recheck == s.recheck
    && |s'.producers| == |s.producers| && |s'.consumers| == |s.consumers|
  }

  lemma PushFixed<T>(s: State<T>, t: nat, item: T, wake: nat)
    requires t < |s.producers|
    ensures Alike(s, PushStep(s, t, item, wake))
  {
  }

  lemma PopFixed<T>(s: State<T>, t: nat, wake: nat)
    requires t < |s.consumers|
    ensures Alike(s, PopStep(s, t, wake))
  {
  }

  lemma NextFixed<T>(s: State<T>, turn: Turn<T>)
    ensures Alike(s, Next(s, turn))
  {
    match turn
    case Producer(t, item, wake) => if t < |s.producers| { PushFixed(s, t, item, wake); }
    case Consumer(t, wake) => if t < |s.consumers| { PopFixed(s, t, wake); }
    case SpuriousProducer(_) =>
    case SpuriousConsumer(_) =>
  }

  lemma {:induction false} ExecFixed<T>(s: State<T>, turns: seq<Turn<T>>)
    ensures Alike(s, Exec(s, turns))
    decreases |turns|
  {
    if turns != [] {
      NextFixed(s, turns[0]);
      ExecFixed(Next(s, turns[0]), turns[1..]);
    }
  }

  /** In every run, with either form of the test, the queue stays within its capacity and the
      items popped are the first items pushed, in order; what is left is the queue. */
  lemma FifoWithinCapacity<T>(s0: State<T>, turns: seq<Turn<T>>)
    requires Init(s0)
    ensures var s := Exec(s0, turns); s.pushed == s.popped + s.queue && |s.queue| <= s0.cap
  {
    ExecInv(s0, turns);
    ExecFixed(s0, turns);
  }

  // ----- taking the front of an empty queue -----

  predicate Faulted<T>(s: State<T>) {
    exists t :: 0 <= t < |s.consumers| && s.consumers[t].PopFault?
  }

  /** With the loop, a consumer about to take has just seen an item under the mutex. */
  ghost predicate ReadyServed<T>(s: State<T>) {
    && s.recheck
    && forall t :: 0 <= t < |s.consumers| ==>
         !s.consumers[t].PopFault? && (s.consumers[t].PopReady? ==> |s.queue| > 0)
  }

  lemma ReadyServedNext<T>(s: State<T>, turn: Turn<T>)
    requires Inv(s) && ReadyServed(s)
    ensures ReadyServed(Next(s, turn))
  {
    match turn
    case Producer(t, item, wake) =>
    case Consumer(t, wake) =>
    case SpuriousProducer(_) =>
    case SpuriousConsumer(_) =>
  }

  lemma {:induction false} ReadyServedExec<T>(s: State<T>, turns: seq<Turn<T>>)
    requires Inv(s) && ReadyServed(s)
    ensures Inv(Exec(s, turns)) && ReadyServed(Exec(s, turns))
    decreases |turns|
  {
    if turns != [] {
      NextInv(s, turns[0]);
      ReadyServedNext(s, turns[0]);
      ReadyServedExec(Next(s, turns[0]), turns[1..]);
    }
  }

  /** With the loop, no consumer ever takes from an empty queue, spurious wakeups or not. */
  lemma RecheckNeverFaults<T>(s0: State<T>, turns: seq<Turn<T>>)
    requires Init(s0) && s0.recheck
    ensures !Faulted(Exec(s0, turns))
  {
    ReadyServedExec(s0, turns);
  }

  /** Nobody can steal the item a consumer was woken for: there is one consumer, or there is
      never an item. */
  ghost predicate NoThief<T>(s: State<T>) {
    |s.consumers| <= 1 || |s.producers| == 0 || s.cap == 0
  }

  ghost predicate WokenServed<T>(s: State<T>) {
    && (|s.producers| == 0 ==> s.pushed == [])
    && forall t :: 0 <= t < |s.consumers| ==>
         !s.consumers[t].PopFault? && (s.consumers[t].PopReady? || s.consumers[t].PopWoken? ==> |s.queue| > 0)
  }

  lemma WokenServedPush<T>(s: State<T>, t: nat, item: T, wake: nat)
    requires Inv(s) && NoThief(s) && WokenServed(s) && t < |s.producers|
    ensures WokenServed(PushStep(s, t, item, wake))
  {
  }

  lemma WokenServedPop<T>(s: State<T>, t: nat, wake: nat)
    requires Inv(s) && NoThief(s) && WokenServed(s) && t < |s.consumers|
    ensures WokenServed(PopStep(s, t, wake))
  {
  }

  lemma WokenServedNext<T>(s: State<T>, turn: Turn<T>)
    requires Inv(s) && NoThief(s) && WokenServed(s) && !Spurious(turn)
    ensures WokenServed(Next(s, turn))
  {
    match turn
    case Producer(t, item, wake) => if t < |s.producers| { WokenServedPush(s, t, item, wake); }
    case Consumer(t, wake) => if t < |s.consumers| { WokenServedPop(s, t, wake); }
  }

  lemma {:induction false} WokenServedExec<T>(s: State<T>, turns: seq<Turn<T>>)
    requires Inv(s) && NoThief(s) && WokenServed(s) && NoSpurious(turns)
    ensures Inv(Exec(s, turns)) && WokenServed(Exec(s, turns))
    decreases |turns|
  {
    if turns != [] {
      NextInv(s, turns[0]);
      NextFixed(s, turns[0]);
      WokenServedNext(s, turns[0]);
      WokenServedExec(Next(s, turns[0]), turns[1..]);
    }
  }

  // ----- who is awake -----

  ghost predicate AwakeProducer<T>(s: State<T>) {
    exists t :: 0 <= t < |s.producers| && !s.producers[t].PushAsleep?
  }

  ghost predicate AwakeConsumer<T>(s: State<T>) {
    exists t :: 0 <= t < |s.consumers| && !s.consumers[t].PopAsleep?
  }

  ghost predicate SignallingProducer<T>(s: State<T>) {
    exists t :: 0 <= t < |s.producers| && s.producers[t].PushSignal?
  }

  ghost predicate SignallingConsumer<T>(s: State<T>) {
    exists t :: 0 <= t < |s.consumers| && s.consumers[t].PopSignal?
  }

  /** An empty queue has an awake producer and a full one an awake consumer, unless the thread
      that just emptied or filled it still holds the mutex to send its signal. */
  ghost predicate Attended<T>(s: State<T>) {
    && (|s.queue| == 0 ==> AwakeProducer(s) || SignallingConsumer(s))
    && (|s.queue| == s.cap ==> AwakeConsumer(s) || SignallingProducer(s))
    && (AwakeProducer(s) || AwakeConsumer(s))
  }

  lemma AttendedPush<T>(s: State<T>, t: nat, item: T, wake: nat)
    requires Inv(s) && Attended(s) && s.cap >= 3 && |s.consumers| > 0 && t < |s.producers|
    ensures Attended(PushStep(s, t, item, wake))
  {
    var s' := PushStep(s, t, item, wake);
    var pc := s'.producers[t];
  }

  lemma AttendedPop<T>(s: State<T>, t: nat, wake: nat)
    requires Inv(s) && Attended(s) && s.cap >= 3 && |s.producers| > 0 && t < |s.consumers|
    ensures Attended(PopStep(s, t, wake))
  {
    var s' := PopStep(s, t, wake);
    var pc := s'.consumers[t];
  }

  lemma AttendedNext<T>(s: State<T>, turn: Turn<T>)
    requires Inv(s) && Attended(s) && s.cap >= 3 && |s.producers| > 0 && |s.consumers| > 0
    ensures Attended(Next(s, turn))
  {
    match turn
    case Producer(t, item, wake) => if t < |s.producers| { AttendedPush(s, t, item, wake); }
    case Consumer(t, wake) => if t < |s.consumers| { AttendedPop(s, t, wake); }
    case SpuriousProducer(t) =>
      var s' := Next(s, turn);
      assert t < |s.producers| ==> !s'.producers[t].PushAsleep? || s' == s;
      assert forall u :: 0 <= u < |s.producers| && s.producers[u].PushSignal? ==> s'.producers[u].PushSignal?;
      assert forall u :: 0 <= u < |s.producers| && !s.producers[u].PushAsleep? ==> !s'.producers[u].PushAsleep?;
    case SpuriousConsumer(t) =>
      var s' := Next(s, turn);
      assert t < |s.consumers| ==> !s'.consumers[t].PopAsleep? || s' == s;
      assert forall u :: 0 <= u < |s.consumers| && s.consumers[u].PopSignal? ==> s'.consumers[u].PopSignal?;
      assert forall u :: 0 <= u < |s.consumers| && !s.consumers[u].PopAsleep? ==> !s'.consumers[u].PopAsleep?;
  }

  lemma {:induction false} AttendedExec<T>(s: State<T>, turns: seq<Turn<T>>)
    requires Inv(s) && Attended(s) && s.cap >= 3 && |s.producers| > 0 && |s.consumers| > 0
    ensures Attended(Exec(s, turns))
    decreases |turns|
  {
    if turns != [] {
      NextInv(s, turns[0]);
      NextFixed(s, turns[0]);
      AttendedNext(s, turns[0]);
      AttendedExec(Next(s, turns[0]), turns[1..]);
    }
  }

  lemma AttendedInit<T>(s: State<T>)
    requires Init(s) && s.cap >= 3 && |s.producers| > 0 && |s.consumers| > 0
    ensures Attended(s)
  {
    assert !s.producers[0].PushAsleep?;
  }
}
