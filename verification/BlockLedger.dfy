/** What goes through the blocking queue, thread by thread: the arguments of the calls of `push`, who
    appended what, who took what, and what the calls of `pop` returned. */
module BlockLedger {
  import opened BlockProtocol
  import opened Counting
  import opened Ledger

  // ----- what the schedule says -----

  /** The arguments of the calls of `push` by producer t that got the lock: the items of the turns at
      which t stood at its call and the mutex was free. */
  function Calls<T>(s: State<T>, turns: seq<Turn<T>>, t: nat): seq<T>
    decreases |turns|
  {
    if turns == [] then [] else CallAt(s, turns[0], t) + Calls(Next(s, turns[0]), turns[1..], t)
  }

  function CallAt<T>(s: State<T>, turn: Turn<T>, t: nat): seq<T> {
    match turn
    case Producer(p, item, _) =>
      if p == t < |s.producers| && s.producers[t].PushCall? && s.mutex == Free then [item] else []
    case _ => []
  }

  /** What the calls of `pop` by consumer t returned: what it held whenever it unlocked. */
  function Returns<T>(s: State<T>, turns: seq<Turn<T>>, t: nat): seq<T>
    decreases |turns|
  {
    if turns == [] then [] else ReturnAt(s, turns[0], t) + Returns(Next(s, turns[0]), turns[1..], t)
  }

  function ReturnAt<T>(s: State<T>, turn: Turn<T>, t: nat): seq<T> {
    match turn
    case Consumer(c, _) =>
      if c == t < |s.consumers| && s.consumers[t].PopUnlock? then [s.consumers[t].out] else []
    case _ => []
  }

  // ----- what happened to the queue -----

  /** Who appended what: whenever a producer's turn makes the list of pushed items longer. */
  function Appends<T>(s: State<T>, turns: seq<Turn<T>>): seq<Access<T>>
    decreases |turns|
  {
    if turns == [] then [] else AppendAt(s, turns[0]) + Appends(Next(s, turns[0]), turns[1..])
  }

  function AppendAt<T>(s: State<T>, turn: Turn<T>): seq<Access<T>> {
    var s' := Next(s, turn);
    if turn.Producer? && |s.pushed| < |s'.pushed| then [Access(turn.p, s'.pushed[|s.pushed|])] else []
  }

  /** Who took what. */
  function Takes<T>(s: State<T>, turns: seq<Turn<T>>): seq<Access<T>>
    decreases |turns|
  {
    if turns == [] then [] else TakeAt(s, turns[0]) + Takes(Next(s, turns[0]), turns[1..])
  }

  function TakeAt<T>(s: State<T>, turn: Turn<T>): seq<Access<T>> {
    var s' := Next(s, turn);
    if turn.Consumer? && |s.popped| < |s'.popped| then [Access(turn.c, s'.popped[|s.popped|])] else []
  }

  // ----- one turn -----

  /** What producer t has been called with and not yet appended. */
  function Carried<T>(s: State<T>, t: nat): seq<T>
    requires t < |s.producers|
  {
    match s.producers[t]
    case PushTest(v) => [v]
    case PushAsleep(v) => [v]
    case PushWoken(v) => [v]
    case PushReady(v) => [v]
    case _ => []
  }

  /** What consumer t has taken and not yet returned. */
  function Held<T>(s: State<T>, t: nat): seq<T>
    requires t < |s.consumers|
  {
    match s.consumers[t]
    case PopSignal(v) => [v]
    case PopUnlock(v) => [v]
    case _ => []
  }

  lemma PushTurn<T>(s: State<T>, p: nat, item: T, wake: nat, t: nat)
    requires p < |s.producers| && t < |s.producers|
    ensures var turn, s' := Producer(p, item, wake), PushStep(s, p, item, wake);
            && |s'.producers| == |s.producers|
            && Carried(s, t) + CallAt(s, turn, t) == By(AppendAt(s, turn), t) + Carried(s', t)
            && s'.pushed == s.pushed + Items(AppendAt(s, turn))
  {
    PushAppends(s, p, item, wake);
    PushCarries(s, p, item, wake, t);
    if s.producers[p].PushReady? {
      ByOne(Access(p, s.producers[p].item), t);
    }
  }

  lemma PushAppends<T>(s: State<T>, p: nat, item: T, wake: nat)
    requires p < |s.producers|
    ensures var turn, s' := Producer(p, item, wake), PushStep(s, p, item, wake);
            && AppendAt(s, turn) == (if s.producers[p].PushReady? then [Access(p, s.producers[p].item)] else [])
            && s'.pushed == s.pushed + Items(AppendAt(s, turn))
  {
    assert s.pushed + [] == s.pushed;
  }

  lemma PushCarries<T>(s: State<T>, p: nat, item: T, wake: nat, t: nat)
    requires p < |s.producers| && t < |s.producers|
    ensures var s' := PushStep(s, p, item, wake);
            && |s'.producers| == |s.producers|
            && Carried(s, t) + CallAt(s, Producer(p, item, wake), t)
               == (if p == t && s.producers[p].PushReady? then [s.producers[p].item] else []) + Carried(s', t)
  {
  }

  /** A consumer's signal leaves every producer with its item. */
  lemma PopLeavesItems<T>(s: State<T>, c: nat, wake: nat, t: nat)
    requires c < |s.consumers| && t < |s.producers|
    ensures var s' := PopStep(s, c, wake);
            |s'.producers| == |s.producers| && Carried(s', t) == Carried(s, t) && s'.pushed == s.pushed
  {
  }

  lemma PopTurn<T>(s: State<T>, c: nat, wake: nat, t: nat)
    requires c < |s.consumers| && t < |s.consumers|
    ensures var turn: Turn<T>, s' := Consumer(c, wake), PopStep(s, c, wake);
            && |s'.consumers| == |s.consumers|
            && Held(s, t) + By(TakeAt(s, turn), t) == ReturnAt(s, turn, t) + Held(s', t)
            && s'.popped == s.popped + Items(TakeAt(s, turn))
  {
    PopTakes(s, c, wake);
    PopHolds(s, c, wake, t);
    if s.consumers[c].PopReady? && s.queue != [] {
      ByOne(Access(c, s.queue[0]), t);
    }
  }

  lemma PopTakes<T>(s: State<T>, c: nat, wake: nat)
    requires c < |s.consumers|
    ensures var turn: Turn<T>, s' := Consumer(c, wake), PopStep(s, c, wake);
            && TakeAt(s, turn) == (if s.consumers[c].PopReady? && s.queue != [] then [Access(c, s.queue[0])] else [])
            && s'.popped == s.popped + Items(TakeAt(s, turn))
  {
    assert s.popped + [] == s.popped;
  }

  lemma PopHolds<T>(s: State<T>, c: nat, wake: nat, t: nat)
    requires c < |s.consumers| && t < |s.consumers|
    ensures var s' := PopStep(s, c, wake);
            && |s'.consumers| == |s.consumers|
            && Held(s, t) + (if c == t && s.consumers[c].PopReady? && s.queue != [] then [s.queue[0]] else [])
               == ReturnAt(s, Consumer(c, wake), t) + Held(s', t)
  {
  }

  /** A producer's signal leaves every consumer with its item. */
  lemma PushLeavesItems<T>(s: State<T>, p: nat, item: T, wake: nat, t: nat)
    requires p < |s.producers| && t < |s.consumers|
    ensures var s' := PushStep(s, p, item, wake);
            |s'.consumers| == |s.consumers| && Held(s', t) == Held(s, t) && s'.popped == s.popped
  {
  }

  lemma NextPushes<T>(s: State<T>, turn: Turn<T>, t: nat)
    requires t < |s.producers|
    ensures var s' := Next(s, turn);
            && |s'.producers| == |s.producers|
            && Carried(s, t) + CallAt(s, turn, t) == By(AppendAt(s, turn), t) + Carried(s', t)
            && s'.pushed == s.pushed + Items(AppendAt(s, turn))
  {
    match turn
    case Producer(p, item, wake) => if p < |s.producers| { PushTurn(s, p, item, wake, t); }
    case Consumer(c, wake) => if c < |s.consumers| { PopLeavesItems(s, c, wake, t); }
    case _ =>
  }

  lemma NextPops<T>(s: State<T>, turn: Turn<T>, t: nat)
    requires t < |s.consumers|
    ensures var s' := Next(s, turn);
            && |s'.consumers| == |s.consumers|
            && Held(s, t) + By(TakeAt(s, turn), t) == ReturnAt(s, turn, t) + Held(s', t)
            && s'.popped == s.popped + Items(TakeAt(s, turn))
  {
    match turn
    case Producer(p, item, wake) => if p < |s.producers| { PushLeavesItems(s, p, item, wake, t); }
    case Consumer(c, wake) => if c < |s.consumers| { PopTurn(s, c, wake, t); }
    case _ =>
  }

  // ----- whole runs -----

  lemma {:induction false} ExecPushes<T>(s: State<T>, turns: seq<Turn<T>>, t: nat)
    requires t < |s.producers|
    ensures var s' := Exec(s, turns);
            && |s'.producers| == |s.producers|
            && Carried(s, t) + Calls(s, turns, t) == By(Appends(s, turns), t) + Carried(s', t)
            && s'.pushed == s.pushed + Items(Appends(s, turns))
    decreases |turns|
  {
    if turns != [] {
      var m := Next(s, turns[0]);
      NextPushes(s, turns[0], t);
      ExecPushes(m, turns[1..], t);
      var here, later := AppendAt(s, turns[0]), Appends(m, turns[1..]);
      ByConcat(here, later, t);
      ItemsConcat(here, later);
      Assoc(s.pushed, Items(here), Items(later));
      Shift(Carried(s, t), CallAt(s, turns[0], t), Calls(m, turns[1..], t), By(here, t), By(later, t),
            Carried(m, t), Carried(Exec(m, turns[1..]), t));
    }
  }

  lemma {:induction false} ExecPops<T>(s: State<T>, turns: seq<Turn<T>>, t: nat)
    requires t < |s.consumers|
    ensures var s' := Exec(s, turns);
            && |s'.consumers| == |s.consumers|
            && Held(s, t) + By(Takes(s, turns), t) == Returns(s, turns, t) + Held(s', t)
            && s'.popped == s.popped + Items(Takes(s, turns))
    decreases |turns|
  {
    if turns != [] {
      var m := Next(s, turns[0]);
      NextPops(s, turns[0], t);
      ExecPops(m, turns[1..], t);
      var here, later := TakeAt(s, turns[0]), Takes(m, turns[1..]);
      ByConcat(here, later, t);
      ItemsConcat(here, later);
      Assoc(s.popped, Items(here), Items(later));
      Shift(Held(s, t), By(here, t), By(later, t), ReturnAt(s, turns[0], t), Returns(m, turns[1..], t),
            Held(m, t), Held(Exec(m, turns[1..]), t));
    }
  }

  /** In every run, with either form of the test, any number of threads and any wakeups: what each
      producer has appended, and the item it still carries through the lock and the wait, are
      exactly the arguments of its calls, in call order; and all appends together, in their order,
      are what was pushed. */
  lemma PushedAreCalls<T>(s0: State<T>, turns: seq<Turn<T>>, t: nat)
    requires Init(s0) && t < |s0.producers|
    ensures var s := Exec(s0, turns);
            && |s.producers| == |s0.producers|
            && Calls(s0, turns, t) == By(Appends(s0, turns), t) + Carried(s, t)
            && s.pushed == Items(Appends(s0, turns))
  {
    ExecPushes(s0, turns, t);
    assert [] + Calls(s0, turns, t) == Calls(s0, turns, t);
    assert [] + Items(Appends(s0, turns)) == Items(Appends(s0, turns));
  }

  /** And what each consumer has taken is exactly what its calls returned, in order, and the item it
      still holds; all takes together are what was popped. */
  lemma PoppedAreReturned<T>(s0: State<T>, turns: seq<Turn<T>>, t: nat)
    requires Init(s0) && t < |s0.consumers|
    ensures var s := Exec(s0, turns);
            && |s.consumers| == |s0.consumers|
            && By(Takes(s0, turns), t) == Returns(s0, turns, t) + Held(s, t)
            && s.popped == Items(Takes(s0, turns))
  {
    ExecPops(s0, turns, t);
    assert [] + By(Takes(s0, turns), t) == By(Takes(s0, turns), t);
    assert [] + Items(Takes(s0, turns)) == Items(Takes(s0, turns));
  }

  // ----- when a signal is sent -----

  /** The water marks: a `push` that has left n items wakes a sleeping consumer exactly when they are
      more than two thirds of the capacity; a `pop` that has left n items wakes a sleeping producer
      exactly when one more would still be within the first third. */
  lemma WakesIff<T>(s: State<T>, t: nat, item: T, wake: nat)
    ensures t < |s.producers| && s.producers[t].PushSignal? && SomeConsumerSleeps(s) ==>
              (PushStep(s, t, item, wake).consumers != s.consumers <==> 3 * |s.queue| > 2 * s.cap)
    ensures t < |s.consumers| && s.consumers[t].PopSignal? && SomeProducerSleeps(s) ==>
              (PopStep(s, t, wake).producers != s.producers <==> 3 * (|s.queue| + 1) <= s.cap)
  {
    SignalWakesOne(s.producers, s.consumers, wake);
  }

  ghost predicate SomeConsumerSleeps<T>(s: State<T>) {
    exists u :: 0 <= u < |s.consumers| && s.consumers[u].PopAsleep?
  }

  ghost predicate SomeProducerSleeps<T>(s: State<T>) {
    exists u :: 0 <= u < |s.producers| && s.producers[u].PushAsleep?
  }

  /** A signal wakes the sleeper that `wake` names, with the item it went to sleep with, or else some
      sleeper, and nobody but this one changes; without a sleeper it has no effect. */
  lemma SignalWakesOne<T>(ps: seq<PushPc<T>>, cs: seq<PopPc<T>>, wake: nat)
    ensures var ps' := SignalProducers(ps, wake);
            && (ps' == ps || exists t :: 0 <= t < |ps| && ps[t].PushAsleep? && ps' == ps[t := PushWoken(ps[t].item)])
            && (wake < |ps| && ps[wake].PushAsleep? ==> ps' == ps[wake := PushWoken(ps[wake].item)])
            && (ps' == ps <==> forall t :: 0 <= t < |ps| ==> !ps[t].PushAsleep?)
    ensures var cs' := SignalConsumers(cs, wake);
            && (cs' == cs || exists t :: 0 <= t < |cs| && cs[t].PopAsleep? && cs' == cs[t := PopWoken])
            && (wake < |cs| && cs[wake].PopAsleep? ==> cs' == cs[wake := PopWoken])
            && (cs' == cs <==> forall t :: 0 <= t < |cs| ==> !cs[t].PopAsleep?)
  {
    var p, c := PickProducer(ps, wake), PickConsumer(cs, wake);
    assert p < |ps| ==> SignalProducers(ps, wake)[p] != ps[p];
    assert c < |cs| ==> SignalConsumers(cs, wake)[c] != cs[c];
  }
}
