/** What goes through the thread pool: the tasks `Push` was called with, who appended what, and the
    way of each task to the worker that runs it. */
module PoolLedger {
  import opened Counting
  import opened Ledger
  import opened PoolProtocol

  /** The tasks of the calls of `Push` by pusher t that got the lock: those of the turns at which t stood
      at its call and the mutex was free. */
  ghost function Calls<T>(s: State<T>, turns: seq<Turn<T>>, t: nat): seq<T>
    requires Inv(s)
    decreases |turns|
  {
    if turns == [] then []
    else
      NextInv(s, turns[0]);
      CallAt(s, turns[0], t) + Calls(Next(s, turns[0]), turns[1..], t)
  }

  ghost function CallAt<T>(s: State<T>, turn: Turn<T>, t: nat): seq<T> {
    match turn
    case Pusher(p, task, _) =>
      if p == t < |s.pushers| && s.pushers[t].PushCall? && s.mutex == Free then [task] else []
    case _ => []
  }

  /** Who appended what: whenever a pusher's turn makes the list of pushed tasks longer. */
  ghost function Appends<T>(s: State<T>, turns: seq<Turn<T>>): seq<Access<T>>
    requires Inv(s)
    decreases |turns|
  {
    if turns == [] then []
    else
      NextInv(s, turns[0]);
      AppendAt(s, turns[0]) + Appends(Next(s, turns[0]), turns[1..])
  }

  ghost function AppendAt<T>(s: State<T>, turn: Turn<T>): seq<Access<T>>
    requires Inv(s)
  {
    var s' := Next(s, turn);
    if turn.Pusher? && |s.pushed| < |s'.pushed| then [Access(turn.p, s'.pushed[|s.pushed|])] else []
  }

  /** What pusher t has been called with and not yet appended. */
  function Carried<T>(s: State<T>, t: nat): seq<T>
    requires t < |s.pushers|
  {
    if s.pushers[t].PushAppend? then [s.pushers[t].task] else []
  }

  // ----- one turn -----

  lemma PushAppends<T>(s: State<T>, p: nat, task: T, wake: nat)
    requires Inv(s) && p < |s.pushers|
    ensures var turn, s' := Pusher(p, task, wake), PushStep(s, p, task, wake);
            && AppendAt(s, turn) == (if s.pushers[p].PushAppend? then [Access(p, s.pushers[p].task)] else [])
            && s'.pushed == s.pushed + Items(AppendAt(s, turn))
  {
    assert s.pushed + [] == s.pushed;
  }

  lemma PushCarries<T>(s: State<T>, p: nat, task: T, wake: nat, t: nat)
    requires p < |s.pushers| && t < |s.pushers|
    ensures var s' := PushStep(s, p, task, wake);
            && |s'.pushers| == |s.pushers|
            && Carried(s, t) + CallAt(s, Pusher(p, task, wake), t)
               == (if p == t && s.pushers[p].PushAppend? then [s.pushers[p].task] else []) + Carried(s', t)
  {
  }

  lemma PushTurn<T>(s: State<T>, p: nat, task: T, wake: nat, t: nat)
    requires Inv(s) && p < |s.pushers| && t < |s.pushers|
    ensures var turn, s' := Pusher(p, task, wake), PushStep(s, p, task, wake);
            && |s'.pushers| == |s.pushers|
            && Carried(s, t) + CallAt(s, turn, t) == By(AppendAt(s, turn), t) + Carried(s', t)
            && s'.pushed == s.pushed + Items(AppendAt(s, turn))
  {
    PushAppends(s, p, task, wake);
    PushCarries(s, p, task, wake, t);
    if s.pushers[p].PushAppend? {
      ByOne(Access(p, s.pushers[p].task), t);
    }
  }

  lemma NextPushes<T>(s: State<T>, turn: Turn<T>, t: nat)
    requires Inv(s) && t < |s.pushers|
    ensures var s' := Next(s, turn);
            && |s'.pushers| == |s.pushers|
            && Carried(s, t) + CallAt(s, turn, t) == By(AppendAt(s, turn), t) + Carried(s', t)
            && s'.pushed == s.pushed + Items(AppendAt(s, turn))
  {
    match turn
    case Pusher(p, task, wake) =>
      if p < |s.pushers| {
        PushTurn(s, p, task, wake, t);
      } else {
        assert s.pushed + [] == s.pushed;
      }
    case _ =>
      WorkersLeaveTasks(s, turn);
      assert s.pushed + [] == s.pushed;
  }

  lemma WorkersLeaveTasks<T>(s: State<T>, turn: Turn<T>)
    requires Inv(s) && !turn.Pusher?
    ensures Next(s, turn).pushers == s.pushers && Next(s, turn).pushed == s.pushed
  {
  }

  // ----- whole runs -----

  lemma {:induction false} ExecPushes<T>(s: State<T>, turns: seq<Turn<T>>, t: nat)
    requires Inv(s) && t < |s.pushers|
    ensures var s' := Exec(s, turns);
            && |s'.pushers| == |s.pushers|
            && Carried(s, t) + Calls(s, turns, t) == By(Appends(s, turns), t) + Carried(s', t)
            && s'.pushed == s.pushed + Items(Appends(s, turns))
    decreases |turns|
  {
    if turns != [] {
      var m := Next(s, turns[0]);
      NextInv(s, turns[0]);
      NextPushes(s, turns[0], t);
      ExecPushes(m, turns[1..], t);
      var here, later := AppendAt(s, turns[0]), Appends(m, turns[1..]);
      ByConcat(here, later, t);
      ItemsConcat(here, later);
      Assoc(s.pushed, Items(here), Items(later));
      Shift(Carried(s, t), CallAt(s, turns[0], t), Calls(m, turns[1..], t), By(here, t), By(later, t),
            Carried(m, t), Carried(Exec(m, turns[1..]), t));
    }
  }

  lemma StartedThenQueued<T>(s: State<T>)
    requires Order(s)
    ensures Items(s.started) + s.queue == s.pushed
  {
    assert Items(s.started) == s.pushed[..|s.started|];
    assert s.pushed == s.pushed[..|s.started|] + s.pushed[|s.started|..];
  }

  /** In every run: what each pusher has appended, and the task it is about to append, are exactly the
      arguments of its calls, in call order; and all appends together, in their order, are the
      tasks pushed, of which the first have been started, in that order. So each task handed to
      `Push` is the one that is run, once. */
  lemma PushedAreCalls<T>(s0: State<T>, turns: seq<Turn<T>>, t: nat)
    requires Init(s0) && t < |s0.pushers|
    ensures Inv(s0)
    ensures var s := Exec(s0, turns);
            && |s.pushers| == |s0.pushers|
            && Calls(s0, turns, t) == By(Appends(s0, turns), t) + Carried(s, t)
            && Items(s.started) + s.queue == Items(Appends(s0, turns))
  {
    InitInv(s0);
    ExecInv(s0, turns);
    ExecPushes(s0, turns, t);
    StartedThenQueued(Exec(s0, turns));
    assert [] + Calls(s0, turns, t) == Calls(s0, turns, t);
    assert [] + Items(Appends(s0, turns)) == Items(Appends(s0, turns));
  }
}
