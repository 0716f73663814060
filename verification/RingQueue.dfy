/** The ring buffer object itself: its slots, indices, semaphores and mutexes are updated in
    place, one statement of one thread at a time. Each turn is proved to be the step of
    `RingProtocol`, so every theorem there is a theorem about this object. */
module RingQueue {
  import opened Ledger
  import opened RingProtocol
  import opened Wrappers

  class RingQueue<T(0)> {
    const cap: int
    const ring: array<T>
    var pStep: int
    var cStep: int
    var cdata: int
    var pspace: int
    var pMutex: Holder
    var cMutex: Holder
    var producers: seq<PushPc<T>>
    var consumers: seq<PopPc<T>>
    ghost var stored: seq<Access<T>>
    ghost var fetched: seq<Access<T>>
    ghost var accepted: seq<seq<T>>
    ghost var returned: seq<seq<T>>

    ghost function View(): State<T>
      reads this, ring
      requires cap >= 0
    {
      State(cap, ring[..], pStep, cStep, cdata, pspace, pMutex, cMutex, producers, consumers,
            stored, fetched, accepted, returned)
    }

    ghost predicate Valid()
      reads this, ring
    {
      cap > 0 && Inv(View())
    }

    constructor (cap: int, nProducers: nat, nConsumers: nat)
      requires cap > 0
      ensures this.cap == cap && fresh(ring)
      ensures Init(View()) && Valid()
      ensures |producers| == nProducers && |consumers| == nConsumers
    {
      this.cap := cap;
      ring := new T[cap];
      pStep, cStep := 0, 0;
      cdata, pspace := 0, cap;
      pMutex, cMutex := Free, Free;
      producers := seq(nProducers, _ => PushCall);
      consumers := seq(nConsumers, _ => PopCall);
      stored, fetched := [], [];
      accepted := seq(nProducers, _ => []);
      returned := seq(nConsumers, _ => []);
      new;
      InitInv(View());
    }

    /** The next statement of producer t, which is calling `Push(item)` whenever it is at its call:
        what it does to the queue. */
    method PushTurn(t: nat, item: T)
      requires Valid() && t < |producers|
      modifies this, ring
      ensures Valid() && View() == PushStep(old(View()), t, item)
      ensures if old(producers[t]).PushLocked? then
                |old(Queue(View()))| < cap && Queue(View()) == old(Queue(View())) + [old(producers[t]).item]
              else Queue(View()) == old(Queue(View()))
      ensures old(producers[t]).PushCall? && old(pspace) > 0 ==>
                && producers[t] == HasSpace(item) && |old(accepted)| == |producers|
                && accepted == old(accepted)[t := old(accepted)[t] + [item]]
    {
      PushEffect(View(), t, item);
      PushStatement(t, item);
    }

    method PushStatement(t: nat, item: T)
      requires cap > 0 && CanPush(View(), t)
      modifies this, ring
      ensures View() == PushStep(old(View()), t, item)
    {
      match producers[t]
      case PushCall =>
        if pspace > 0 {
          pspace := pspace - 1;
          producers := producers[t := HasSpace(item)];
          accepted := accepted[t := accepted[t] + [item]];
        }
      case HasSpace(v) =>
        if pMutex == Free {
          pMutex := HeldBy(t);
          producers := producers[t := PushLocked(v)];
        }
      case PushLocked(v) =>
        ring[pStep] := v;
        producers := producers[t := Stored];
        stored := stored + [Access(t, v)];
      case Stored =>
        pStep := pStep + 1;
        producers := producers[t := PushStepped];
      case PushStepped =>
        pStep := pStep % cap;
        producers := producers[t := PushWrapped];
      case PushWrapped =>
        pMutex := Free;
        producers := producers[t := PushUnlocked];
      case PushUnlocked =>
        cdata := cdata + 1;
        producers := producers[t := PushCall];
    }

    /** The next statement of consumer t: what it does to the queue. `out` is what its `Pop` returns
        when this statement is the last one of the call. */
    method PopTurn(t: nat) returns (out: Option<T>)
      requires Valid() && t < |consumers|
      modifies this
      ensures Valid() && View() == PopStep(old(View()), t)
      ensures if old(consumers[t]).PopLocked? then
                && |old(Queue(View()))| > 0 && consumers[t] == Fetched(old(Queue(View()))[0])
                && Queue(View()) == old(Queue(View()))[1..]
              else Queue(View()) == old(Queue(View()))
      ensures out.Some? <==> old(consumers[t]).PopUnlocked?
      ensures returned == if out.Some? then old(returned)[t := old(returned)[t] + [out.value]] else old(returned)
    {
      PopEffect(View(), t);
      out := PopStatement(t);
    }

    method PopStatement(t: nat) returns (out: Option<T>)
      requires cap > 0 && CanPop(View(), t)
      modifies this
      ensures View() == PopStep(old(View()), t)
      ensures out.Some? <==> old(consumers[t]).PopUnlocked?
      ensures returned == if out.Some? then old(returned)[t := old(returned)[t] + [out.value]] else old(returned)
    {
      out := None;
      match consumers[t]
      case PopCall =>
        if cdata > 0 {
          cdata := cdata - 1;
          consumers := consumers[t := HasData];
        }
      case HasData =>
        if cMutex == Free {
          cMutex := HeldBy(t);
          consumers := consumers[t := PopLocked];
        }
      case PopLocked =>
        var v := ring[cStep];
        consumers := consumers[t := Fetched(v)];
        fetched := fetched + [Access(t, v)];
      case Fetched(v) =>
        cStep := cStep + 1;
        consumers := consumers[t := PopStepped(v)];
      case PopStepped(v) =>
        cStep := cStep % cap;
        consumers := consumers[t := PopWrapped(v)];
      case PopWrapped(v) =>
        cMutex := Free;
        consumers := consumers[t := PopUnlocked(v)];
      case PopUnlocked(v) =>
        pspace := pspace + 1;
        consumers := consumers[t := PopCall];
        returned := returned[t := returned[t] + [v]];
        out := Some(v);
    }

    /** Executes a schedule. */
    method Run(turns: seq<Turn<T>>)
      requires Valid()
      modifies this, ring
      ensures Valid()
      ensures View() == Exec(old(View()), turns)
      ensures |accepted| == |old(accepted)|
      ensures forall t :: 0 <= t < |accepted| ==> accepted[t] == old(accepted)[t] + Calls(old(View()), turns, t)
    {
      ghost var s0 := View();
      for i := 0 to |turns|
        invariant Valid()
        invariant Exec(View(), turns[i..]) == Exec(s0, turns)
      {
        assert turns[i..][0] == turns[i] && turns[i..][1..] == turns[i + 1..];
        ghost var s := View();
        NextInv(s, turns[i]);
        match turns[i] {
          case Producer(t, item) =>
            if t < |producers| {
              PushTurn(t, item);
            }
          case Consumer(t) =>
            if t < |consumers| {
              var _ := PopTurn(t);
            }
        }
        assert View() == Next(s, turns[i]);
      }
      AllLogs(s0, turns);
    }
  }
}
