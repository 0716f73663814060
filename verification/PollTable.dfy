/** The poll server's descriptor table against the sockets that are really open. */
module PollTable {
  import opened Counting
  import opened Descriptors
  import opened Wrappers

  const DEFAULT_FD := -1
  const POLLIN := 1
  const EVENT_NONE := 0

  datatype Slot = Slot(fd: int, events: int, revents: int)

  /** The bit `POLLIN` of a mask. */
  predicate HasPollin(mask: int) { mask % 2 == 1 }

  /** The listening socket, the descriptors the server has nothing to do with, the table, the
      sockets that are open, whether a descriptor was closed that was not open, the descriptors it
      has called `read` for so far, and whether it waits in `accept` or `read` for something that
      does not come. */
  datatype State = State(listen: int, others: set<int>, rds: seq<Slot>, open: set<int>, bad: bool,
                         heard: seq<int>, blocked: bool)

  function Close(s: State, fd: int): State {
    s.(open := s.open - {fd}, bad := s.bad || fd !in s.open)
  }

  /** The first free slot from pos on, or the length. */
  function FreeSlot(rds: seq<Slot>, pos: nat): (p: nat)
    requires pos <= |rds|
    ensures pos <= p <= |rds| && (p < |rds| ==> rds[p].fd == DEFAULT_FD)
    ensures forall k :: pos <= k < p ==> rds[k].fd != DEFAULT_FD
    decreases |rds| - pos
  {
    if pos == |rds| || rds[pos].fd == DEFAULT_FD then pos else FreeSlot(rds, pos + 1)
  }

  /** What `accept` finds: a connection, an error, or nobody, and then it waits. */
  datatype Incoming = Connection | Failure | Nobody

  function Accept(s: State, incoming: Incoming): (s': State)
    requires |s.rds| > 0
    ensures |s'.rds| == |s.rds|
  {
    match incoming
    case Nobody => s.(blocked := true)
    case Failure => s
    case Connection =>
      var sock := LowestFree(s.others + s.open, 0);
      var t := s.(open := s.open + {sock});
      var pos := FreeSlot(s.rds, 1);
      if pos == |s.rds| then Close(t, sock)
      else t.(rds := t.rds[pos := Slot(sock, POLLIN, EVENT_NONE)])
  }

  /** `Recver` for slot i: what `read` returns, or None when it waits. */
  function Recv(s: State, i: nat, n: Option<int>): State
    requires i < |s.rds|
  {
    var fd := s.rds[i].fd;
    var t := s.(heard := s.heard + [fd]);
    if n.None? then t.(blocked := true)
    else if n.value > 0 then t
    else Close(t, fd).(rds := t.rds[i := t.rds[i].(fd := DEFAULT_FD)])
  }

  /** What `read` would return for slot i in a sweep; nothing, unless given. */
  function Result(results: seq<Option<int>>, i: nat): Option<int> {
    if i < |results| then results[i] else None
  }

  /** One slot's turn in `Dispatcher`. */
  function Visit(s: State, i: nat, incoming: Incoming, results: seq<Option<int>>): (s': State)
    requires i < |s.rds|
    ensures |s'.rds| == |s.rds|
  {
    if s.rds[i].fd == DEFAULT_FD || !HasPollin(s.rds[i].events) then s
    else if s.rds[i].fd == s.listen then Accept(s, incoming)
    else Recv(s, i, Result(results, i))
  }

  /** `Dispatcher` from slot i on. */
  function Dispatch(s: State, i: nat, incoming: Incoming, results: seq<Option<int>>): (s': State)
    requires i <= |s.rds|
    ensures |s'.rds| == |s.rds|
    decreases |s.rds| - i
  {
    if i == |s.rds| || s.blocked then s
    else Dispatch(Visit(s, i, incoming, results), i + 1, incoming, results)
  }

  /** What `poll` reports for slot i; nothing, unless given. */
  function Reported(report: seq<int>, i: nat): int {
    if i < |report| then report[i] else EVENT_NONE
  }

  /** `poll` fills in `revents`. */
  function Store(s: State, report: seq<int>): (s': State)
    ensures |s'.rds| == |s.rds|
  {
    s.(rds := seq(|s.rds|, i requires 0 <= i < |s.rds| =>
         s.rds[i].(revents := if s.rds[i].fd == DEFAULT_FD then EVENT_NONE else Reported(report, i))))
  }

  datatype Event = TimeOut | PollError | Ready(report: seq<int>, incoming: Incoming, results: seq<Option<int>>)

  function Step(s: State, e: Event): (s': State)
    ensures |s'.rds| == |s.rds|
  {
    if s.blocked then s
    else
      match e
      case TimeOut => Store(s, [])
      case PollError => s
      case Ready(report, incoming, results) => Dispatch(Store(s, report), 0, incoming, results)
  }

  function Run(s: State, events: seq<Event>): State
    decreases |events|
  {
    if events == [] then s else Run(Step(s, events[0]), events[1..])
  }

  /** A server with n slots, listening, at the start of its loop. */
  function Begin(n: nat, listen: nat, others: set<int>): State
    requires n > 0
  {
    State(listen, others, seq(n, _ => Slot(DEFAULT_FD, EVENT_NONE, EVENT_NONE))[0 := Slot(listen, POLLIN, EVENT_NONE)],
          {listen}, false, [], false)
  }

  predicate Used(rds: seq<Slot>, fd: int) {
    exists i :: 0 <= i < |rds| && rds[i].fd == fd
  }

  /** No descriptor is in two slots. */
  predicate Different(rds: seq<Slot>) {
    forall i, j :: 0 <= i < j < |rds| && rds[i].fd == rds[j].fd ==> rds[i].fd == DEFAULT_FD
  }

  /** Slot 0 is the listening socket, occupied slots hold different descriptors, the occupied
      descriptors are exactly the open sockets, all watched, and nothing was closed twice. */
  ghost predicate Inv(s: State) {
    && |s.rds| > 0 && s.rds[0].fd == s.listen >= 0
    && Different(s.rds)
    && (forall i :: 0 <= i < |s.rds| && s.rds[i].fd != DEFAULT_FD ==> s.rds[i].events == POLLIN)
    && (forall fd: int :: fd != DEFAULT_FD ==> (Used(s.rds, fd) <==> fd in s.open))
    && DEFAULT_FD !in s.open
    && s.open !! s.others
    && !s.bad
  }

  lemma BeginInv(n: nat, listen: nat, others: set<int>)
    requires n > 0 && listen !in others
    ensures Inv(Begin(n, listen, others))
  {
    var s := Begin(n, listen, others);
    assert s.rds[0].fd == listen;
  }

  lemma StoreInv(s: State, report: seq<int>)
    requires Inv(s)
    ensures Inv(Store(s, report))
  {
    var rds' := Store(s, report).rds;
    forall fd: int ensures Used(rds', fd) <==> Used(s.rds, fd) {
      if i :| 0 <= i < |s.rds| && s.rds[i].fd == fd {
        assert rds'[i].fd == fd;
      }
      if i :| 0 <= i < |s.rds| && rds'[i].fd == fd {
        assert s.rds[i].fd == fd;
      }
    }
  }

  lemma AcceptInv(s: State, incoming: Incoming)
    requires Inv(s)
    ensures Inv(Accept(s, incoming))
  {
    if incoming.Connection? {
      var sock := LowestFree(s.others + s.open, 0);
      var pos := FreeSlot(s.rds, 1);
      if pos == |s.rds| {
        assert s.open + {sock} - {sock} == s.open;
      } else {
        PutUsed(s.rds, pos, Slot(sock, POLLIN, EVENT_NONE));
        assert !Used(s.rds, sock);
      }
    }
  }

  /** Filling a free slot adds its descriptor. */
  lemma PutUsed(rds: seq<Slot>, pos: nat, slot: Slot)
    requires pos < |rds| && rds[pos].fd == DEFAULT_FD
    ensures forall fd: int :: fd != DEFAULT_FD ==> (Used(rds[pos := slot], fd) <==> fd == slot.fd || Used(rds, fd))
  {
    var rds' := rds[pos := slot];
    forall fd: int | fd != DEFAULT_FD ensures Used(rds', fd) <==> fd == slot.fd || Used(rds, fd) {
      if Used(rds, fd) {
        var i :| 0 <= i < |rds| && rds[i].fd == fd;
        assert rds'[i].fd == fd;
      }
      if fd == slot.fd {
        assert rds'[pos].fd == fd;
      }
    }
  }

  /** Clearing a slot removes its descriptor, and no other. */
  lemma ClearUsed(rds: seq<Slot>, pos: nat, slot: Slot)
    requires pos < |rds| && slot.fd == DEFAULT_FD
    requires forall i :: 0 <= i < |rds| && i != pos ==> rds[i].fd != rds[pos].fd
    ensures forall fd: int :: fd != DEFAULT_FD ==> (Used(rds[pos := slot], fd) <==> fd != rds[pos].fd && Used(rds, fd))
  {
    var rds' := rds[pos := slot];
    forall fd: int | fd != DEFAULT_FD ensures Used(rds', fd) <==> fd != rds[pos].fd && Used(rds, fd) {
      if fd != rds[pos].fd && Used(rds, fd) {
        var i :| 0 <= i < |rds| && rds[i].fd == fd;
        assert rds'[i].fd == fd;
      }
    }
  }

  lemma RecvInv(s: State, i: nat, n: Option<int>)
    requires Inv(s) && 0 < i < |s.rds| && s.rds[i].fd != DEFAULT_FD
    ensures Inv(Recv(s, i, n))
  {
    if n.Some? && n.value <= 0 {
      assert Used(s.rds, s.rds[i].fd);
      ClearUsed(s.rds, i, s.rds[i].(fd := DEFAULT_FD));
    }
  }

  lemma VisitInv(s: State, i: nat, incoming: Incoming, results: seq<Option<int>>)
    requires Inv(s) && i < |s.rds|
    ensures Inv(Visit(s, i, incoming, results))
  {
    AcceptInv(s, incoming);
    if i > 0 && s.rds[i].fd != DEFAULT_FD {
      RecvInv(s, i, Result(results, i));
    }
  }

  lemma {:induction false} DispatchInv(s: State, i: nat, incoming: Incoming, results: seq<Option<int>>)
    requires Inv(s) && i <= |s.rds|
    ensures Inv(Dispatch(s, i, incoming, results))
    decreases |s.rds| - i
  {
    if i < |s.rds| && !s.blocked {
      VisitInv(s, i, incoming, results);
      DispatchInv(Visit(s, i, incoming, results), i + 1, incoming, results);
    }
  }

  lemma StepInv(s: State, e: Event)
    requires Inv(s)
    ensures Inv(Step(s, e))
  {
    match e
    case TimeOut => StoreInv(s, []);
    case PollError =>
    case Ready(report, incoming, results) =>
      StoreInv(s, report);
      DispatchInv(Store(s, report), 0, incoming, results);
  }

  lemma {:induction false} RunInv(s: State, events: seq<Event>)
    requires Inv(s)
    ensures Inv(Run(s, events))
    decreases |events|
  {
    if events != [] {
      StepInv(s, events[0]);
      RunInv(Step(s, events[0]), events[1..]);
    }
  }

  /** In every run, whatever connections come and go, and also when one is accepted in the middle
      of a sweep: slot 0 is the listening socket, the occupied slots hold different descriptors,
      the table has exactly the open sockets, and no socket was closed twice. */
  lemma TableIsOpenSockets(n: nat, listen: nat, others: set<int>, events: seq<Event>)
    requires n > 0 && listen !in others
    ensures var s := Run(Begin(n, listen, others), events);
            && |s.rds| == n && s.rds[0].fd == listen && listen in s.open
            && Different(s.rds)
            && (forall fd: int :: fd != DEFAULT_FD ==> (Used(s.rds, fd) <==> fd in s.open))
            && s.open !! others && !s.bad
  {
    BeginInv(n, listen, others);
    RunInv(Begin(n, listen, others), events);
    RunKeeps(Begin(n, listen, others), events);
    var s := Run(Begin(n, listen, others), events);
    assert Used(s.rds, s.rds[0].fd);
  }

  lemma {:induction false} DispatchKeeps(s: State, i: nat, incoming: Incoming, results: seq<Option<int>>)
    requires i <= |s.rds|
    ensures var s' := Dispatch(s, i, incoming, results); s'.listen == s.listen && s'.others == s.others
    decreases |s.rds| - i
  {
    if i < |s.rds| && !s.blocked {
      DispatchKeeps(Visit(s, i, incoming, results), i + 1, incoming, results);
    }
  }

  lemma {:induction false} RunKeeps(s: State, events: seq<Event>)
    ensures var s' := Run(s, events);
            |s'.rds| == |s.rds| && s'.listen == s.listen && s'.others == s.others
    decreases |events|
  {
    if events != [] {
      if events[0].Ready? {
        DispatchKeeps(Store(s, events[0].report), 0, events[0].incoming, events[0].results);
      }
      RunKeeps(Step(s, events[0]), events[1..]);
    }
  }

  // ----- what one sweep does -----

  /** The descriptors in slots i to j - 1. */
  function Listed(rds: seq<Slot>, i: nat, j: nat): seq<int>
    requires i <= j <= |rds|
    decreases j - i
  {
    if i == j then []
    else (if rds[i].fd == DEFAULT_FD then [] else [rds[i].fd]) + Listed(rds, i + 1, j)
  }

  lemma {:induction false} ListedSame(rds: seq<Slot>, rds': seq<Slot>, i: nat, j: nat)
    requires i <= j <= |rds| == |rds'| && forall k :: i <= k < j ==> rds[k] == rds'[k]
    ensures Listed(rds, i, j) == Listed(rds', i, j)
    decreases j - i
  {
    if i < j {
      ListedSame(rds, rds', i + 1, j);
      assert rds[i].fd == rds'[i].fd && Listed(rds, i + 1, j) == Listed(rds', i + 1, j);
    }
  }

  predicate UsedIn(rds: seq<Slot>, i: nat, j: nat, fd: int)
    requires j <= |rds|
  {
    exists k :: i <= k < j && rds[k].fd == fd
  }

  lemma UsedInStep(rds: seq<Slot>, i: nat, j: nat, fd: int)
    requires i < j <= |rds|
    ensures UsedIn(rds, i, j, fd) <==> rds[i].fd == fd || UsedIn(rds, i + 1, j, fd)
  {
    if UsedIn(rds, i + 1, j, fd) {
      var k :| i + 1 <= k < j && rds[k].fd == fd;
      assert i <= k < j;
    }
  }

  lemma {:induction false} ListedHas(rds: seq<Slot>, i: nat, j: nat, fd: int)
    requires i <= j <= |rds|
    ensures fd in Listed(rds, i, j) <==> fd != DEFAULT_FD && UsedIn(rds, i, j, fd)
    decreases j - i
  {
    if i < j {
      UsedInStep(rds, i, j, fd);
      ListedHas(rds, i + 1, j, fd);
    }
  }

  /** A connection with nothing to read, not even its end. */
  predicate Silent(slot: Slot, n: Option<int>) { slot.fd != DEFAULT_FD && n.None? }

  /** The slot after the last one a sweep visits, from slot i on: a silent connection stops it. */
  function Reach(rds: seq<Slot>, i: nat, results: seq<Option<int>>): (e: nat)
    requires i <= |rds|
    ensures i <= e <= |rds|
    ensures forall k :: i <= k < e - 1 ==> !Silent(rds[k], Result(results, k))
    ensures e == |rds| || (e > i && Silent(rds[e - 1], Result(results, e - 1)))
    decreases |rds| - i
  {
    if i == |rds| then i
    else if Silent(rds[i], Result(results, i)) then i + 1
    else Reach(rds, i + 1, results)
  }

  lemma {:induction false} ReachSame(rds: seq<Slot>, rds': seq<Slot>, i: nat, results: seq<Option<int>>)
    requires i <= |rds| == |rds'| && forall k :: i <= k < |rds| ==> rds[k] == rds'[k]
    ensures Reach(rds, i, results) == Reach(rds', i, results)
    decreases |rds| - i
  {
    if i < |rds| {
      ReachSame(rds, rds', i + 1, results);
    }
  }

  /** A slot after it has been visited. */
  function Swept(slot: Slot, n: Option<int>): Slot {
    if slot.fd == DEFAULT_FD || n.None? || n.value > 0 then slot else slot.(fd := DEFAULT_FD)
  }

  predicate SomeoneSilent(rds: seq<Slot>, i: nat, results: seq<Option<int>>) {
    exists k :: i <= k < |rds| && Silent(rds[k], Result(results, k))
  }

  lemma ClientVisit(s: State, i: nat, incoming: Incoming, results: seq<Option<int>>)
    requires Inv(s) && 0 < i < |s.rds| && !s.blocked
    ensures var t := Visit(s, i, incoming, results);
            && t.heard == s.heard + Listed(s.rds, i, i + 1)
            && t.rds == s.rds[i := Swept(s.rds[i], Result(results, i))]
            && t.blocked == Silent(s.rds[i], Result(results, i))
  {
    var here := if s.rds[i].fd == DEFAULT_FD then [] else [s.rds[i].fd];
    assert Listed(s.rds, i, i + 1) == here + Listed(s.rds, i + 1, i + 1) == here;
    assert s.heard + [] == s.heard;
  }

  /** Which descriptors the rest of a sweep reads. */
  lemma {:induction false} DispatchHears(s: State, i: nat, incoming: Incoming, results: seq<Option<int>>)
    requires Inv(s) && 0 < i <= |s.rds| && !s.blocked
    ensures Dispatch(s, i, incoming, results).heard == s.heard + Listed(s.rds, i, Reach(s.rds, i, results))
    decreases |s.rds| - i
  {
    if i == |s.rds| {
      assert s.heard + [] == s.heard;
    } else {
      var t := Visit(s, i, incoming, results);
      ClientVisit(s, i, incoming, results);
      if !t.blocked {
        VisitInv(s, i, incoming, results);
        DispatchHears(t, i + 1, incoming, results);
        ListedOn(s.rds, t.rds, i, results);
        Assoc(s.heard, Listed(s.rds, i, i + 1), Listed(t.rds, i + 1, Reach(t.rds, i + 1, results)));
      }
    }
  }

  lemma ListedOn(rds: seq<Slot>, rds': seq<Slot>, i: nat, results: seq<Option<int>>)
    requires i < |rds| == |rds'| && !Silent(rds[i], Result(results, i))
    requires forall k :: i < k < |rds| ==> rds[k] == rds'[k]
    ensures Listed(rds, i, Reach(rds, i, results))
         == Listed(rds, i, i + 1) + Listed(rds', i + 1, Reach(rds', i + 1, results))
  {
    var e := Reach(rds, i, results);
    ReachSame(rds, rds', i + 1, results);
    ListedSame(rds, rds', i + 1, e);
    var here := if rds[i].fd == DEFAULT_FD then [] else [rds[i].fd];
    assert Listed(rds, i, i + 1) == here + Listed(rds, i + 1, i + 1) == here;
  }

  /** The table after the slots i to e - 1 have been visited. */
  predicate SweptPart(rds: seq<Slot>, rds': seq<Slot>, i: nat, e: nat, results: seq<Option<int>>) {
    && |rds'| == |rds|
    && forall k :: 0 <= k < |rds| ==> rds'[k] == if i <= k < e then Swept(rds[k], Result(results, k)) else rds[k]
  }

  lemma SweptOne(rds: seq<Slot>, i: nat, results: seq<Option<int>>)
    requires i < |rds|
    ensures SweptPart(rds, rds[i := Swept(rds[i], Result(results, i))], i, i + 1, results)
  {
  }

  lemma SweptMore(rds: seq<Slot>, rds': seq<Slot>, i: nat, e: nat, results: seq<Option<int>>)
    requires i < |rds| && i + 1 <= e
    requires SweptPart(rds[i := Swept(rds[i], Result(results, i))], rds', i + 1, e, results)
    ensures SweptPart(rds, rds', i, e, results)
  {
  }

  /** What the rest of a sweep leaves in the table. */
  lemma {:induction false} DispatchLeaves(s: State, i: nat, incoming: Incoming, results: seq<Option<int>>)
    requires Inv(s) && 0 < i <= |s.rds| && !s.blocked
    ensures SweptPart(s.rds, Dispatch(s, i, incoming, results).rds, i, Reach(s.rds, i, results), results)
    decreases |s.rds| - i
  {
    if i < |s.rds| {
      var t := Visit(s, i, incoming, results);
      ClientVisit(s, i, incoming, results);
      if t.blocked {
        SweptOne(s.rds, i, results);
      } else {
        VisitInv(s, i, incoming, results);
        DispatchLeaves(t, i + 1, incoming, results);
        ReachSame(s.rds, t.rds, i + 1, results);
        SweptMore(s.rds, Dispatch(t, i + 1, incoming, results).rds, i, Reach(s.rds, i, results), results);
      }
    }
  }

  /** Whether the rest of a sweep gets stuck. */
  lemma {:induction false} DispatchStops(s: State, i: nat, incoming: Incoming, results: seq<Option<int>>)
    requires Inv(s) && 0 < i <= |s.rds| && !s.blocked
    ensures Dispatch(s, i, incoming, results).blocked <==> SomeoneSilent(s.rds, i, results)
    decreases |s.rds| - i
  {
    if i < |s.rds| {
      var t := Visit(s, i, incoming, results);
      ClientVisit(s, i, incoming, results);
      if !t.blocked {
        VisitInv(s, i, incoming, results);
        DispatchStops(t, i + 1, incoming, results);
        SilentSame(s.rds, t.rds, i, results);
      }
    }
  }

  /** A sweep begins at the listening socket. */
  lemma DispatchStart(s: State, incoming: Incoming, results: seq<Option<int>>)
    requires Inv(s) && !s.blocked
    ensures Dispatch(s, 0, incoming, results) == Dispatch(Accept(s, incoming), 1, incoming, results)
  {
    assert Visit(s, 0, incoming, results) == Accept(s, incoming);
  }

  lemma SilentSame(rds: seq<Slot>, rds': seq<Slot>, i: nat, results: seq<Option<int>>)
    requires i < |rds| == |rds'| && !Silent(rds[i], Result(results, i))
    requires forall k :: i < k < |rds| ==> rds[k] == rds'[k]
    ensures SomeoneSilent(rds, i, results) <==> SomeoneSilent(rds', i + 1, results)
  {
    if SomeoneSilent(rds, i, results) {
      var k :| i <= k < |rds| && Silent(rds[k], Result(results, k));
      assert Silent(rds'[k], Result(results, k));
    }
    if SomeoneSilent(rds', i + 1, results) {
      var k :| i + 1 <= k < |rds'| && Silent(rds'[k], Result(results, k));
      assert Silent(rds[k], Result(results, k));
    }
  }

  /** Where the sweep gets to: not past the listening socket when nobody wants to connect. */
  function SweepEnd(s: State, incoming: Incoming, results: seq<Option<int>>): (e: nat)
    requires |s.rds| > 0
    ensures 1 <= e <= |s.rds|
  {
    if incoming.Nobody? then 1 else Reach(Accept(s, incoming).rds, 1, results)
  }

  /** One sweep: the connection that was waiting is accepted, then every connection in the table,
      the new one too, is read once, in slot order, up to the first that has nothing to read; of
      those, exactly the ones whose read gave data stay, and the one that has nothing. */
  lemma SweepReadsAll(s: State, incoming: Incoming, results: seq<Option<int>>)
    requires Inv(s) && !s.blocked
    ensures var a, s', e := Accept(s, incoming), Dispatch(s, 0, incoming, results), SweepEnd(s, incoming, results);
            && s'.heard == s.heard + Listed(a.rds, 1, e)
            && (forall k :: 0 <= k < |s.rds| ==>
                  s'.rds[k] == if 1 <= k < e then Swept(a.rds[k], Result(results, k)) else a.rds[k])
  {
    AcceptInv(s, incoming);
    DispatchStart(s, incoming, results);
    if incoming.Nobody? {
      assert s.heard + [] == s.heard;
    } else {
      DispatchHears(Accept(s, incoming), 1, incoming, results);
      DispatchLeaves(Accept(s, incoming), 1, incoming, results);
    }
  }

  /** A sweep comes to its end exactly when somebody wants to connect (or `accept` fails) and every
      connection in the table, the new one too, has something to read. Whatever `poll` reported. */
  lemma SweepStopsIff(s: State, report: seq<int>, incoming: Incoming, results: seq<Option<int>>)
    requires Inv(s) && !s.blocked
    ensures Step(s, Ready(report, incoming, results)).blocked <==>
            incoming == Nobody || SomeoneSilent(Accept(Store(s, report), incoming).rds, 1, results)
  {
    var q := Store(s, report);
    StoreInv(s, report);
    AcceptInv(q, incoming);
    DispatchStart(q, incoming, results);
    if !incoming.Nobody? {
      DispatchStops(Accept(q, incoming), 1, incoming, results);
    }
  }

  /** The sweep has not read slot k, or found data or nothing there. */
  predicate Stays(results: seq<Option<int>>, e: nat, k: nat) {
    k >= e || Result(results, k).None? || Result(results, k).value > 0
  }

  predicate StillOpen(rds: seq<Slot>, e: nat, results: seq<Option<int>>, fd: int) {
    fd != DEFAULT_FD && exists k :: 0 < k < |rds| && rds[k].fd == fd && Stays(results, e, k)
  }

  /** Which sockets are open after a sweep. */
  lemma SweepKeepsOpenIff(s: State, incoming: Incoming, results: seq<Option<int>>, fd: int)
    requires Inv(s) && !s.blocked
    ensures fd in Dispatch(s, 0, incoming, results).open <==>
            fd == s.listen || StillOpen(Accept(s, incoming).rds, SweepEnd(s, incoming, results), results, fd)
  {
    var a, s' := Accept(s, incoming), Dispatch(s, 0, incoming, results);
    SweepReadsAll(s, incoming, results);
    DispatchInv(s, 0, incoming, results);
    AcceptInv(s, incoming);
    assert s'.rds[0].fd == s.listen;
    if fd in s'.open && fd != s.listen {
      assert Used(s'.rds, fd);
      var k :| 0 <= k < |s'.rds| && s'.rds[k].fd == fd;
      assert a.rds[k].fd == fd;
    }
    if StillOpen(a.rds, SweepEnd(s, incoming, results), results, fd) {
      var k :| 0 < k < |a.rds| && a.rds[k].fd == fd && Stays(results, SweepEnd(s, incoming, results), k);
      assert s'.rds[k].fd == fd;
    }
  }

  // ----- what the report of `poll` matters -----

  predicate SameSlots(rds: seq<Slot>, rds': seq<Slot>) {
    && |rds| == |rds'|
    && forall i :: 0 <= i < |rds| ==> rds[i].fd == rds'[i].fd && rds[i].events == rds'[i].events
  }

  /** The same, but for what `poll` has reported. */
  predicate SameBut(s: State, t: State) {
    s.(rds := t.rds) == t && SameSlots(s.rds, t.rds)
  }

  lemma {:induction false} FreeSlotSame(rds: seq<Slot>, rds': seq<Slot>, pos: nat)
    requires SameSlots(rds, rds') && pos <= |rds|
    ensures FreeSlot(rds, pos) == FreeSlot(rds', pos)
    decreases |rds| - pos
  {
    if pos < |rds| {
      FreeSlotSame(rds, rds', pos + 1);
    }
  }

  lemma VisitSame(s: State, t: State, i: nat, incoming: Incoming, results: seq<Option<int>>)
    requires SameBut(s, t) && i < |s.rds|
    ensures SameBut(Visit(s, i, incoming, results), Visit(t, i, incoming, results))
  {
    FreeSlotSame(s.rds, t.rds, 1);
    assert |s.rds| == |t.rds| && s.rds[i].fd == t.rds[i].fd && s.rds[i].events == t.rds[i].events;
  }

  lemma {:induction false} DispatchSame(s: State, t: State, i: nat, incoming: Incoming, results: seq<Option<int>>)
    requires SameBut(s, t) && i <= |s.rds|
    ensures SameBut(Dispatch(s, i, incoming, results), Dispatch(t, i, incoming, results))
    decreases |s.rds| - i
  {
    if i < |s.rds| && !s.blocked {
      VisitSame(s, t, i, incoming, results);
      DispatchSame(Visit(s, i, incoming, results), Visit(t, i, incoming, results), i + 1, incoming, results);
    }
  }

  /** Everything but what `poll` has reported is as it was. */
  lemma SameButIs(s: State, t: State)
    ensures SameBut(s, t) <==>
            && t.listen == s.listen && t.others == s.others && t.open == s.open && t.bad == s.bad
            && t.heard == s.heard && t.blocked == s.blocked && |t.rds| == |s.rds|
            && forall i :: 0 <= i < |s.rds| ==> t.rds[i].fd == s.rds[i].fd && t.rds[i].events == s.rds[i].events
  {
  }

  /** `poll` reports into the slots that are in use, clears the others, and changes nothing else. */
  lemma PollReports(s: State, report: seq<int>, i: nat)
    requires i < |s.rds|
    ensures SameBut(s, Store(s, report))
    ensures Store(s, report).rds[i].revents ==
            if s.rds[i].fd != -1 && i < |report| then report[i] else 0
  {
  }

  /** After a time-out and after an error of `poll` the server polls again: no socket is read, accepted
      or closed, it does not wait, and every slot keeps its descriptor and its events. */
  lemma QuietStep(s: State, e: Event)
    requires e.TimeOut? || e.PollError?
    ensures var s' := Step(s, e);
            && s'.heard == s.heard && s'.open == s.open && s'.blocked == s.blocked && s'.bad == s.bad
            && |s'.rds| == |s.rds|
            && forall i :: 0 <= i < |s.rds| ==> s'.rds[i].fd == s.rds[i].fd && s'.rds[i].events == s.rds[i].events
    ensures SameBut(s, Step(s, e))
  {
    SameButIs(s, Step(s, e));
  }

  /** A server that waits in `accept` or `read` does nothing any more. */
  lemma {:induction false} WaitsForEver(s: State, events: seq<Event>)
    requires s.blocked
    ensures Run(s, events) == s
    decreases |events|
  {
    if events != [] {
      WaitsForEver(s, events[1..]);
    }
  }

  /** The events that are not time-outs or errors. */
  function Readies(events: seq<Event>): seq<Event> {
    if events == [] then []
    else if events[0].Ready? then [events[0]] + Readies(events[1..])
    else Readies(events[1..])
  }

  lemma SameButTrans(s: State, t: State, u: State)
    requires SameBut(s, t) && SameBut(t, u)
    ensures SameBut(s, u) && SameBut(t, s)
  {
  }

  lemma {:induction false} RunSame(s: State, t: State, events: seq<Event>)
    requires SameBut(s, t)
    ensures SameBut(Run(s, events), Run(t, Readies(events)))
    decreases |events|
  {
    if events != [] {
      if events[0].Ready? {
        StepSame(s, t, events[0], events[0]);
        assert Readies(events)[1..] == Readies(events[1..]);
        RunSame(Step(s, events[0]), Step(t, events[0]), events[1..]);
      } else {
        QuietStep(s, events[0]);
        SameButTrans(s, Step(s, events[0]), s);
        SameButTrans(Step(s, events[0]), s, t);
        RunSame(Step(s, events[0]), t, events[1..]);
      }
    }
  }

  /** Time-outs and errors make no difference, wherever they come in a run: the sockets read, the
      sockets open and whether the server waits are those of the run without them. So a run of
      nothing else reads nothing and never waits. */
  lemma QuietEventsIgnored(s: State, events: seq<Event>)
    ensures var a, b := Run(s, events), Run(s, Readies(events));
            && a.heard == b.heard && a.open == b.open && a.blocked == b.blocked && a.bad == b.bad
            && |a.rds| == |b.rds|
            && forall i :: 0 <= i < |a.rds| ==> a.rds[i].fd == b.rds[i].fd && a.rds[i].events == b.rds[i].events
    ensures (forall i :: 0 <= i < |events| ==> !events[i].Ready?) ==> Readies(events) == []
  {
    RunSame(s, s, events);
    if forall i :: 0 <= i < |events| ==> !events[i].Ready? {
      NoReadies(events);
    }
  }

  lemma {:induction false} NoReadies(events: seq<Event>)
    requires forall i :: 0 <= i < |events| ==> !events[i].Ready?
    ensures Readies(events) == []
    decreases |events|
  {
    if events != [] {
      NoReadies(events[1..]);
    }
  }

  /** The same event, but for the report. */
  predicate SameEvent(e: Event, e': Event) {
    if e.Ready? && e'.Ready? then e.incoming == e'.incoming && e.results == e'.results else e == e'
  }

  predicate SameEvents(es: seq<Event>, es': seq<Event>) {
    |es| == |es'| && forall i :: 0 <= i < |es| ==> SameEvent(es[i], es'[i])
  }

  lemma StepSame(s: State, t: State, e: Event, e': Event)
    requires SameBut(s, t) && SameEvent(e, e')
    ensures SameBut(Step(s, e), Step(t, e'))
  {
    if !s.blocked && e.Ready? {
      DispatchSame(Store(s, e.report), Store(t, e'.report), 0, e.incoming, e.results);
    }
  }

  /** Whatever `poll` reports makes no difference, in any run: the same sockets are read in the same
      order, the same are open, and the server gets stuck at the same place. */
  lemma {:induction false} ReportsIgnored(s: State, t: State, es: seq<Event>, es': seq<Event>)
    requires SameBut(s, t) && SameEvents(es, es')
    ensures SameBut(Run(s, es), Run(t, es'))
    decreases |es|
  {
    if es != [] {
      StepSame(s, t, es[0], es'[0]);
      ReportsIgnored(Step(s, es[0]), Step(t, es'[0]), es[1..], es'[1..]);
    }
  }

  /** `poll` has reported that this socket, which is in the table, can be read: the bit POLLIN. */
  predicate Announced(rds: seq<Slot>, report: seq<int>, fd: int) {
    exists i :: 0 <= i < |rds| && i < |report| && rds[i].fd == fd && report[i] % 2 == 1
  }

  /** Among the slots the sweep visits after the accept, the occupied ones were occupied before it and
      have been reported. */
  predicate AllReported(before: seq<Slot>, rds: seq<Slot>, e: nat, report: seq<int>) {
    forall k :: 1 <= k < e && k < |rds| && k < |before| && rds[k].fd != DEFAULT_FD ==>
      before[k].fd == rds[k].fd && k < |report| && report[k] % 2 == 1
  }

  /** A sweep reads only sockets that `poll` has reported exactly when all connections that are in
      the table after the accept, as far as the sweep gets, were reported; so it never does when it
      gets to a new one. */
  lemma ReadsOnlyReportedIff(s: State, report: seq<int>, incoming: Incoming, results: seq<Option<int>>)
    requires Inv(s) && !s.blocked
    ensures var q := Store(s, report);
            var s' := Step(s, Ready(report, incoming, results));
            && s.heard <= s'.heard
            && ((forall fd :: fd in s'.heard[|s.heard|..] ==> Announced(s.rds, report, fd)) <==>
                AllReported(s.rds, Accept(q, incoming).rds, SweepEnd(q, incoming, results), report))
  {
    var q := Store(s, report);
    var a, e := Accept(q, incoming), SweepEnd(q, incoming, results);
    StoreInv(s, report);
    SweepReadsAll(q, incoming, results);
    assert Step(s, Ready(report, incoming, results)).heard[|s.heard|..] == Listed(a.rds, 1, e);
    forall k | 1 <= k < e && a.rds[k].fd != DEFAULT_FD
      ensures Announced(s.rds, report, a.rds[k].fd) <==>
              s.rds[k].fd == a.rds[k].fd && k < |report| && report[k] % 2 == 1
    {
      AnnouncedIff(s, report, incoming, k);
    }
    ListedAnnounced(s.rds, a.rds, e, report);
  }

  /** The descriptors listed are all announced exactly when each of their slots was reported. */
  lemma ListedAnnounced(before: seq<Slot>, rds: seq<Slot>, e: nat, report: seq<int>)
    requires 1 <= e <= |rds| == |before|
    requires forall k :: 1 <= k < e && rds[k].fd != DEFAULT_FD ==>
               (Announced(before, report, rds[k].fd) <==>
                before[k].fd == rds[k].fd && k < |report| && report[k] % 2 == 1)
    ensures (forall fd :: fd in Listed(rds, 1, e) ==> Announced(before, report, fd)) <==>
            AllReported(before, rds, e, report)
  {
    forall fd ensures fd in Listed(rds, 1, e) <==> fd != DEFAULT_FD && UsedIn(rds, 1, e, fd) {
      ListedHas(rds, 1, e, fd);
    }
    if AllReported(before, rds, e, report) {
      forall fd | fd in Listed(rds, 1, e) ensures Announced(before, report, fd) {
        var k :| 1 <= k < e && rds[k].fd == fd;
      }
    } else {
      var k :| 1 <= k < e && rds[k].fd != DEFAULT_FD &&
               !(before[k].fd == rds[k].fd && k < |report| && report[k] % 2 == 1);
      assert UsedIn(rds, 1, e, rds[k].fd);
    }
  }

  /** The socket in a slot was reported exactly when it was there before and its slot was reported; a
      new one was not. */
  lemma AnnouncedIff(s: State, report: seq<int>, incoming: Incoming, k: nat)
    requires Inv(s) && 1 <= k < |s.rds| && Accept(Store(s, report), incoming).rds[k].fd != DEFAULT_FD
    ensures var fd := Accept(Store(s, report), incoming).rds[k].fd;
            Announced(s.rds, report, fd) <==> s.rds[k].fd == fd && k < |report| && report[k] % 2 == 1
  {
    var a := Accept(Store(s, report), incoming);
    var fd := a.rds[k].fd;
    if s.rds[k].fd == fd {
      if i :| 0 <= i < |s.rds| && i < |report| && s.rds[i].fd == fd && report[i] % 2 == 1 {
        assert i == k;
      }
    } else {
      assert fd !in s.open;
      assert !Used(s.rds, fd);
    }
  }

  /** An input on which it fails: two slots, and `poll` reports only the listening socket. The sweep
      accepts the connection, reads it at once, and is stuck when nothing has been sent yet. */
  lemma ReadsUnreported()
    ensures var s := Step(Begin(2, 3, {0, 1, 2}), Ready([POLLIN], Connection, []));
            s.heard == [4] && s.blocked && !Announced(Begin(2, 3, {0, 1, 2}).rds, [POLLIN], 4)
  {
    var s := Begin(2, 3, {0, 1, 2});
    var q := Store(s, [POLLIN]);
    BeginInv(2, 3, {0, 1, 2});
    StoreInv(s, [POLLIN]);
    assert q.rds[1].fd == DEFAULT_FD && q.rds[0].fd == 3;
    FirstSocket(q);
    var a := Accept(q, Connection);
    SweepReadsAll(q, Connection, []);
    assert Silent(a.rds[1], Result([], 1));
    assert Listed(a.rds, 1, 2) == [4] + Listed(a.rds, 2, 2);
    SweepStopsIff(s, [POLLIN], Connection, []);
  }

  lemma FirstSocket(q: State)
    requires q.others == {0, 1, 2} && q.open == {3} && |q.rds| == 2 && q.rds[1].fd == DEFAULT_FD
    ensures Accept(q, Connection).rds == q.rds[1 := Slot(4, POLLIN, EVENT_NONE)]
  {
    var used := q.others + q.open;
    var sock := LowestFree(used, 0);
    assert 0 in used && 1 in used && 2 in used && 3 in used;
    assert 4 !in used;
    assert sock == 4;
  }

  // ----- when the server is full -----

  /** The descriptors in the first k slots. */
  function FirstFds(rds: seq<Slot>, k: nat): (fds: set<int>)
    requires k <= |rds|
    ensures forall fd :: fd in fds <==> fd != DEFAULT_FD && Used(rds[..k], fd)
  {
    if k == 0 then {}
    else
      assert forall fd :: Used(rds[..k], fd) <==> Used(rds[..k - 1], fd) || fd == rds[k - 1].fd by {
        LastUsed(rds, k);
      }
      FirstFds(rds, k - 1) + (if rds[k - 1].fd == DEFAULT_FD then {} else {rds[k - 1].fd})
  }

  lemma LastUsed(rds: seq<Slot>, k: nat)
    requires 0 < k <= |rds|
    ensures forall fd :: Used(rds[..k], fd) <==> Used(rds[..k - 1], fd) || fd == rds[k - 1].fd
  {
    forall fd: int ensures Used(rds[..k], fd) <==> Used(rds[..k - 1], fd) || fd == rds[k - 1].fd {
      if Used(rds[..k - 1], fd) {
        var i :| 0 <= i < k - 1 && rds[..k - 1][i].fd == fd;
        assert rds[..k][i].fd == fd;
      }
      if Used(rds[..k], fd) && fd != rds[k - 1].fd {
        var i :| 0 <= i < k && rds[..k][i].fd == fd;
        assert rds[..k - 1][i].fd == fd;
      }
      assert rds[..k][k - 1] == rds[k - 1];
    }
  }

  lemma LastIsNew(rds: seq<Slot>, k: nat)
    requires 0 < k <= |rds| && Different(rds)
    ensures rds[k - 1].fd !in FirstFds(rds, k - 1)
  {
    if Used(rds[..k - 1], rds[k - 1].fd) {
      var i :| 0 <= i < k - 1 && rds[..k - 1][i].fd == rds[k - 1].fd;
      assert rds[i].fd == DEFAULT_FD;
    }
  }

  lemma {:induction false} FirstFdsSize(rds: seq<Slot>, k: nat)
    requires k <= |rds| && Different(rds)
    ensures |FirstFds(rds, k)| <= k
    ensures |FirstFds(rds, k)| == k <==> forall i :: 0 <= i < k ==> rds[i].fd != DEFAULT_FD
    decreases k
  {
    if k > 0 {
      FirstFdsSize(rds, k - 1);
      LastIsNew(rds, k);
    }
  }

  lemma OpenIsListed(s: State)
    requires Inv(s)
    ensures FirstFds(s.rds, |s.rds|) == s.open
  {
    assert s.rds[..|s.rds|] == s.rds;
    var fds := FirstFds(s.rds, |s.rds|);
    forall fd | fd in fds ensures fd in s.open {
      assert Used(s.rds, fd);
    }
    forall fd | fd in s.open ensures fd in fds {
      assert Used(s.rds, fd);
    }
  }

  /** A waiting connection is turned away, and closed at once, exactly when the table is full,
      which is when as many sockets are open as there are slots. Otherwise it gets the first free
      slot and nothing else changes. */
  lemma TurnedAwayIff(s: State)
    requires Inv(s)
    ensures var a, sock, pos := Accept(s, Connection), LowestFree(s.others + s.open, 0), FreeSlot(s.rds, 1);
            && |s.open| <= |s.rds|
            && (a == s <==> |s.open| == |s.rds|)
            && Accept(s, Failure) == s && Accept(s, Nobody) == s.(blocked := true)
            && (a != s ==> a == s.(open := s.open + {sock}, rds := s.rds[pos := Slot(sock, POLLIN, EVENT_NONE)])
                           && sock !in s.open)
  {
    var n := |s.rds|;
    FirstFdsSize(s.rds, n);
    OpenIsListed(s);
    var sock := LowestFree(s.others + s.open, 0);
    if FreeSlot(s.rds, 1) == n {
      assert s.open + {sock} - {sock} == s.open;
    } else {
      assert s.rds[FreeSlot(s.rds, 1)].fd == DEFAULT_FD;
    }
  }
}
