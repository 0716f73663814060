/** The bounded multi-producer multi-consumer ring as an interleaving of atomic statements.

    Every thread loops forever over `Push` or over `Pop`. A schedule is a list of turns; a turn
    lets one thread execute its next statement, or do nothing when that statement blocks. The
    theorems hold for every schedule, that is for every interleaving. */
module RingProtocol {
  import opened Counting
  import opened Ledger
  import opened Modular

  datatype Holder = Free | HeldBy(thread: nat)

  /** Where a producer stands in `Push`; the item travels with it until it is stored. */
  datatype PushPc<T> =
    | PushCall              // about to do P(pspace_sem)
    | HasSpace(item: T)     // about to lock p_mutex
    | PushLocked(item: T)   // about to store the item
    | Stored                // about to do p_step++
    | PushStepped           // about to do p_step %= _cap
    | PushWrapped           // about to unlock p_mutex
    | PushUnlocked          // about to do V(cdata_sem)

  /** Where a consumer stands in `Pop`; the fetched item travels with it until it returns. */
  datatype PopPc<T> =
    | PopCall               // about to do P(cdata_sem)
    | HasData               // about to lock c_mutex
    | PopLocked             // about to fetch
    | Fetched(out: T)       // about to do c_step++
    | PopStepped(out: T)    // about to do c_step %= _cap
    | PopWrapped(out: T)    // about to unlock c_mutex
    | PopUnlocked(out: T)   // about to do V(pspace_sem)

  /** The shared memory, the threads, and what happened so far: the accesses that stored into
      slots and that fetched from slots, in order; per producer the items whose P succeeded;
      per consumer the items its finished `Pop` calls returned. */
  datatype State<T> = State(
    cap: nat,
    ring: seq<T>,
    pStep: int,
    cStep: int,
    cdata: int,
    pspace: int,
    pMutex: Holder,
    cMutex: Holder,
    producers: seq<PushPc<T>>,
    consumers: seq<PopPc<T>>,
    stored: seq<Access<T>>,
    fetched: seq<Access<T>>,
    accepted: seq<seq<T>>,
    returned: seq<seq<T>>)

  datatype Turn<T> = Producer(p: nat, item: T) | Consumer(c: nat)

  ghost predicate Init<T>(s: State<T>) {
    && s.cap > 0
    && |s.ring| == s.cap
    && s.pStep == 0 && s.cStep == 0
    && s.cdata == 0 && s.pspace == s.cap
    && s.pMutex == Free && s.cMutex == Free
    && (forall t :: 0 <= t < |s.producers| ==> s.producers[t] == PushCall)
    && (forall t :: 0 <= t < |s.consumers| ==> s.consumers[t] == PopCall)
    && s.stored == [] && s.fetched == []
    && |s.accepted| == |s.producers| && (forall t :: 0 <= t < |s.accepted| ==> s.accepted[t] == [])
    && |s.returned| == |s.consumers| && (forall t :: 0 <= t < |s.returned| ==> s.returned[t] == [])
  }

  // ----- one statement of one thread -----

  /** What the statement needs to be defined: a slot inside the vector, a non-zero divisor. */
  ghost predicate CanPush<T>(s: State<T>, t: nat) {
    && t < |s.producers| == |s.accepted|
    && (s.producers[t].PushLocked? ==> 0 <= s.pStep < |s.ring|)
    && (s.producers[t].PushStepped? ==> s.cap > 0)
  }

  ghost predicate CanPop<T>(s: State<T>, t: nat) {
    && t < |s.consumers| == |s.returned|
    && (s.consumers[t].PopLocked? ==> 0 <= s.cStep < |s.ring|)
    && (s.consumers[t].PopStepped? ==> s.cap > 0)
  }

  ghost function PushStep<T>(s: State<T>, t: nat, item: T): State<T>
    requires CanPush(s, t)
  {
    match s.producers[t]
    case PushCall =>
      if s.pspace > 0 then
        s.(pspace := s.pspace - 1,
           accepted := s.accepted[t := s.accepted[t] + [item]],
           producers := s.producers[t := HasSpace(item)])
      else s
    case HasSpace(v) =>
      if s.pMutex == Free then s.(pMutex := HeldBy(t), producers := s.producers[t := PushLocked(v)]) else s
    case PushLocked(v) =>
      s.(ring := s.ring[s.pStep := v], stored := s.stored + [Access(t, v)], producers := s.producers[t := Stored])
    case Stored =>
      s.(pStep := s.pStep + 1, producers := s.producers[t := PushStepped])
    case PushStepped =>
      s.(pStep := s.pStep % s.cap, producers := s.producers[t := PushWrapped])
    case PushWrapped =>
      s.(pMutex := Free, producers := s.producers[t := PushUnlocked])
    case PushUnlocked =>
      s.(cdata := s.cdata + 1, producers := s.producers[t := PushCall])
  }

  ghost function PopStep<T>(s: State<T>, t: nat): State<T>
    requires CanPop(s, t)
  {
    match s.consumers[t]
    case PopCall =>
      if s.cdata > 0 then s.(cdata := s.cdata - 1, consumers := s.consumers[t := HasData]) else s
    case HasData =>
      if s.cMutex == Free then s.(cMutex := HeldBy(t), consumers := s.consumers[t := PopLocked]) else s
    case PopLocked =>
      var v := s.ring[s.cStep];
      s.(fetched := s.fetched + [Access(t, v)], consumers := s.consumers[t := Fetched(v)])
    case Fetched(v) =>
      s.(cStep := s.cStep + 1, consumers := s.consumers[t := PopStepped(v)])
    case PopStepped(v) =>
      s.(cStep := s.cStep % s.cap, consumers := s.consumers[t := PopWrapped(v)])
    case PopWrapped(v) =>
      s.(cMutex := Free, consumers := s.consumers[t := PopUnlocked(v)])
    case PopUnlocked(v) =>
      s.(pspace := s.pspace + 1,
         returned := s.returned[t := s.returned[t] + [v]],
         consumers := s.consumers[t := PopCall])
  }

  // ----- the groups of program points the semaphores account for -----

  predicate Reserved<T>(pc: PushPc<T>) { pc.HasSpace? || pc.PushLocked? }
  predicate Unposted<T>(pc: PushPc<T>) { pc.Stored? || pc.PushStepped? || pc.PushWrapped? || pc.PushUnlocked? }
  predicate PushHolds<T>(pc: PushPc<T>) { pc.PushLocked? || pc.Stored? || pc.PushStepped? || pc.PushWrapped? }
  predicate Claimed<T>(pc: PopPc<T>) { pc.HasData? || pc.PopLocked? }
  predicate Unreturned<T>(pc: PopPc<T>) { pc.Fetched? || pc.PopStepped? || pc.PopWrapped? || pc.PopUnlocked? }
  predicate PopHolds<T>(pc: PopPc<T>) { pc.PopLocked? || pc.Fetched? || pc.PopStepped? || pc.PopWrapped? }

  ghost function NReserved<T>(s: State<T>): nat { Count(s.producers, Reserved) }
  ghost function NUnposted<T>(s: State<T>): nat { Count(s.producers, Unposted) }
  ghost function NClaimed<T>(s: State<T>): nat { Count(s.consumers, Claimed) }
  ghost function NUnreturned<T>(s: State<T>): nat { Count(s.consumers, Unreturned) }

  // ----- the invariant -----

  /** Each semaphore is tied to the logs by the threads between its P and the other one's V. */
  ghost predicate Accounts<T>(s: State<T>) {
    && s.cdata >= 0 && s.pspace >= 0
    && s.cdata + NUnposted(s) + NClaimed(s) + |s.fetched| == |s.stored|
    && s.pspace + NReserved(s) + NUnreturned(s) + |s.stored| == s.cap + |s.fetched|
  }

  ghost predicate Exclusive<T>(s: State<T>) {
    && (s.pMutex.HeldBy? ==> s.pMutex.thread < |s.producers|)
    && (s.cMutex.HeldBy? ==> s.cMutex.thread < |s.consumers|)
    && (forall t :: 0 <= t < |s.producers| ==> (PushHolds(s.producers[t]) <==> s.pMutex == HeldBy(t)))
    && (forall t :: 0 <= t < |s.consumers| ==> (PopHolds(s.consumers[t]) <==> s.cMutex == HeldBy(t)))
  }

  /** What a step index must be, given how far its mutex holder has got after the n-th access. */
  ghost predicate IndexAt(cap: nat, step: int, n: nat, accessed: bool, bumped: bool)
    requires cap > 0
  {
    if accessed then n > 0 && step == (n - 1) % cap
    else if bumped then n > 0 && step == (n - 1) % cap + 1
    else step == n % cap
  }

  ghost predicate Indices<T>(s: State<T>)
    requires s.cap > 0 && Exclusive(s)
  {
    && (var pc := if s.pMutex.HeldBy? then s.producers[s.pMutex.thread] else PushCall;
        IndexAt(s.cap, s.pStep, |s.stored|, pc.Stored?, pc.PushStepped?))
    && (var pc := if s.cMutex.HeldBy? then s.consumers[s.cMutex.thread] else PopCall;
        IndexAt(s.cap, s.cStep, |s.fetched|, pc.Fetched?, pc.PopStepped?))
  }

  /** Fetches replay stores, and the ring holds exactly the items not yet fetched. */
  ghost predicate Contents<T>(s: State<T>)
    requires s.cap > 0 && |s.ring| == s.cap
  {
    && |s.fetched| <= |s.stored|
    && (forall i :: 0 <= i < |s.fetched| ==> s.fetched[i].item == s.stored[i].item)
    && (forall i :: |s.fetched| <= i < |s.stored| ==> s.ring[i % s.cap] == s.stored[i].item)
  }

  ghost function Carried<T>(pc: PushPc<T>): seq<T> {
    if Reserved(pc) then [pc.item] else []
  }

  ghost function Holding<T>(pc: PopPc<T>): seq<T> {
    if Unreturned(pc) then [pc.out] else []
  }

  /** Every accepted item was stored once by its own producer, in call order, unless that
      producer still carries it; every fetched item is returned once by its own consumer. */
  ghost predicate Ledgers<T>(s: State<T>) {
    && |s.accepted| == |s.producers|
    && |s.returned| == |s.consumers|
    && (forall t :: 0 <= t < |s.producers| ==> s.accepted[t] == By(s.stored, t) + Carried(s.producers[t]))
    && (forall t :: 0 <= t < |s.consumers| ==> By(s.fetched, t) == s.returned[t] + Holding(s.consumers[t]))
  }

  ghost predicate Inv<T>(s: State<T>) {
    && s.cap > 0
    && |s.ring| == s.cap
    && Accounts(s)
    && Exclusive(s)
    && Indices(s)
    && Contents(s)
    && Ledgers(s)
  }

  lemma InitInv<T>(s: State<T>)
    requires Init(s)
    ensures Inv(s)
  {
    CountNone(s.producers, Reserved);
    CountNone(s.producers, Unposted);
    CountNone(s.consumers, Claimed);
    CountNone(s.consumers, Unreturned);
  }

  /** One producer moving changes only that producer's contribution to the two counts. */
  lemma ProducerMoves<T>(s: State<T>, t: nat, pc: PushPc<T>)
    requires t < |s.producers|
    ensures Count(s.producers[t := pc], Reserved) == NReserved(s) - Bit(Reserved(s.producers[t])) + Bit(Reserved(pc))
    ensures Count(s.producers[t := pc], Unposted) == NUnposted(s) - Bit(Unposted(s.producers[t])) + Bit(Unposted(pc))
  {
    CountUpdate(s.producers, t, pc, Reserved);
    CountUpdate(s.producers, t, pc, Unposted);
  }

  lemma ConsumerMoves<T>(s: State<T>, t: nat, pc: PopPc<T>)
    requires t < |s.consumers|
    ensures Count(s.consumers[t := pc], Claimed) == NClaimed(s) - Bit(Claimed(s.consumers[t])) + Bit(Claimed(pc))
    ensures Count(s.consumers[t := pc], Unreturned) == NUnreturned(s) - Bit(Unreturned(s.consumers[t])) + Bit(Unreturned(pc))
  {
    CountUpdate(s.consumers, t, pc, Claimed);
    CountUpdate(s.consumers, t, pc, Unreturned);
  }

  // ----- every producer statement keeps the invariant -----

  lemma PushAccounts<T>(s: State<T>, t: nat, item: T)
    requires Accounts(s) && CanPush(s, t)
    ensures Accounts(PushStep(s, t, item))
  {
    var s' := PushStep(s, t, item);
    ProducerMoves(s, t, s'.producers[t]);
    assert s'.producers == s.producers[t := s'.producers[t]];
  }

  lemma PushExclusive<T>(s: State<T>, t: nat, item: T)
    requires Exclusive(s) && CanPush(s, t)
    ensures Exclusive(PushStep(s, t, item))
  {
  }

  lemma PushIndices<T>(s: State<T>, t: nat, item: T)
    requires s.cap > 0 && Exclusive(s) && Indices(s) && CanPush(s, t)
    requires Exclusive(PushStep(s, t, item))
    ensures Indices(PushStep(s, t, item))
  {
    match s.producers[t]
    case PushStepped =>
      ModSuccessor(|s.stored| - 1, s.cap);
    case _ =>
  }

  lemma PushContents<T>(s: State<T>, t: nat, item: T)
    requires s.cap > 0 && |s.ring| == s.cap && Accounts(s) && Exclusive(s) && Indices(s) && Contents(s) && CanPush(s, t)
    ensures Contents(PushStep(s, t, item))
  {
    var s' := PushStep(s, t, item);
    if s.producers[t].PushLocked? {
      CountWitness(s.producers, t, Reserved);
      forall i | |s'.fetched| <= i < |s'.stored|
        ensures s'.ring[i % s.cap] == s'.stored[i].item
      {
        if i < |s.stored| {
          ModDistinct(i, |s.stored|, s.cap);
        }
      }
    }
  }

  lemma PushLedgerOf<T>(s: State<T>, t: nat, item: T, u: nat)
    requires CanPush(s, t) && u < |s.producers|
    requires s.accepted[u] == By(s.stored, u) + Carried(s.producers[u])
    ensures var s' := PushStep(s, t, item); s'.accepted[u] == By(s'.stored, u) + Carried(s'.producers[u])
  {
    PushMoves(s, t, item, u);
    if s.producers[t].PushLocked? {
      ByAppend(s.stored, Access(t, s.producers[t].item), u);
    }
  }

  /** What one producer statement does to the three places an item of producer u can be. */
  lemma PushMoves<T>(s: State<T>, t: nat, item: T, u: nat)
    requires CanPush(s, t) && u < |s.producers|
    ensures var s', pc := PushStep(s, t, item), s.producers[t];
            && s'.stored == (if pc.PushLocked? then s.stored + [Access(t, pc.item)] else s.stored)
            && s'.accepted[u] ==
                 (if u == t && pc.PushCall? && s.pspace > 0 then s.accepted[u] + [item] else s.accepted[u])
            && Carried(s'.producers[u]) ==
                 (if u != t then Carried(s.producers[u])
                  else if pc.PushCall? && s.pspace > 0 then [item]
                  else if pc.PushLocked? then []
                  else Carried(pc))
  {
  }

  lemma PushFrame<T>(s: State<T>, t: nat, item: T)
    requires CanPush(s, t)
    ensures var s' := PushStep(s, t, item);
            && s'.cap == s.cap && |s'.ring| == |s.ring|
            && |s'.producers| == |s.producers| && |s'.accepted| == |s.accepted|
            && s'.consumers == s.consumers && s'.fetched == s.fetched && s'.returned == s.returned
  {
  }

  lemma PushStepInv<T>(s: State<T>, t: nat, item: T)
    requires Inv(s) && t < |s.producers|
    ensures Inv(PushStep(s, t, item))
  {
    PushFrame(s, t, item);
    PushAccounts(s, t, item);
    PushExclusive(s, t, item);
    PushIndices(s, t, item);
    PushContents(s, t, item);
    forall u: nat | u < |s.producers|
      ensures var s' := PushStep(s, t, item); s'.accepted[u] == By(s'.stored, u) + Carried(s'.producers[u])
    {
      PushLedgerOf(s, t, item, u);
    }
  }

  // ----- every consumer statement keeps the invariant -----

  lemma PopAccounts<T>(s: State<T>, t: nat)
    requires Accounts(s) && CanPop(s, t)
    ensures Accounts(PopStep(s, t))
  {
    var s' := PopStep(s, t);
    ConsumerMoves(s, t, s'.consumers[t]);
    assert s'.consumers == s.consumers[t := s'.consumers[t]];
  }

  lemma PopExclusive<T>(s: State<T>, t: nat)
    requires Exclusive(s) && CanPop(s, t)
    ensures Exclusive(PopStep(s, t))
  {
  }

  lemma PopIndices<T>(s: State<T>, t: nat)
    requires s.cap > 0 && Exclusive(s) && Indices(s) && CanPop(s, t)
    requires Exclusive(PopStep(s, t))
    ensures Indices(PopStep(s, t))
  {
    match s.consumers[t]
    case PopStepped(_) =>
      ModSuccessor(|s.fetched| - 1, s.cap);
    case _ =>
  }

  lemma PopContents<T>(s: State<T>, t: nat)
    requires s.cap > 0 && |s.ring| == s.cap && Accounts(s) && Exclusive(s) && Indices(s) && Contents(s) && CanPop(s, t)
    ensures Contents(PopStep(s, t))
  {
    if s.consumers[t].PopLocked? {
      CountWitness(s.consumers, t, Claimed);
    }
  }

  lemma PopLedgerOf<T>(s: State<T>, t: nat, u: nat)
    requires CanPop(s, t) && u < |s.consumers|
    requires By(s.fetched, u) == s.returned[u] + Holding(s.consumers[u])
    ensures var s' := PopStep(s, t); By(s'.fetched, u) == s'.returned[u] + Holding(s'.consumers[u])
  {
    PopMoves(s, t, u);
    if s.consumers[t].PopLocked? {
      ByAppend(s.fetched, Access(t, s.ring[s.cStep]), u);
    }
  }

  /** What one consumer statement does to the three places an item of consumer u can be. */
  lemma PopMoves<T>(s: State<T>, t: nat, u: nat)
    requires CanPop(s, t) && u < |s.consumers|
    ensures var s', pc := PopStep(s, t), s.consumers[t];
            && s'.fetched == (if pc.PopLocked? then s.fetched + [Access(t, s.ring[s.cStep])] else s.fetched)
            && s'.returned[u] == (if u == t && pc.PopUnlocked? then s.returned[u] + [pc.out] else s.returned[u])
            && Holding(s'.consumers[u]) ==
                 (if u != t then Holding(s.consumers[u])
                  else if pc.PopLocked? then [s.ring[s.cStep]]
                  else if pc.PopUnlocked? then []
                  else Holding(pc))
  {
  }

  lemma PopFrame<T>(s: State<T>, t: nat)
    requires CanPop(s, t)
    ensures var s' := PopStep(s, t);
            && s'.cap == s.cap && s'.ring == s.ring
            && |s'.consumers| == |s.consumers| && |s'.returned| == |s.returned|
            && s'.producers == s.producers && s'.stored == s.stored && s'.accepted == s.accepted
  {
  }

  lemma PopStepInv<T>(s: State<T>, t: nat)
    requires Inv(s) && t < |s.consumers|
    ensures Inv(PopStep(s, t))
  {
    PopFrame(s, t);
    PopAccounts(s, t);
    PopExclusive(s, t);
    PopIndices(s, t);
    PopContents(s, t);
    forall u: nat | u < |s.consumers|
      ensures var s' := PopStep(s, t); By(s'.fetched, u) == s'.returned[u] + Holding(s'.consumers[u])
    {
      PopLedgerOf(s, t, u);
    }
  }

  // ----- whole runs -----

  /** The effect of one turn; a turn for a thread that does not exist does nothing. */
  ghost function Next<T>(s: State<T>, turn: Turn<T>): State<T>
    requires Inv(s)
  {
    match turn
    case Producer(t, item) => if t < |s.producers| then PushStep(s, t, item) else s
    case Consumer(t) => if t < |s.consumers| then PopStep(s, t) else s
  }

  lemma NextInv<T>(s: State<T>, turn: Turn<T>)
    requires Inv(s)
    ensures Inv(Next(s, turn))
  {
    match turn
    case Producer(t, item) => if t < |s.producers| { PushStepInv(s, t, item); }
    case Consumer(t) => if t < |s.consumers| { PopStepInv(s, t); }
  }

  /** The state after a schedule. */
  ghost function Exec<T>(s: State<T>, turns: seq<Turn<T>>): State<T>
    requires Inv(s)
    decreases |turns|
  {
    if turns == [] then s
    else
      NextInv(s, turns[0]);
      Exec(Next(s, turns[0]), turns[1..])
  }

  lemma {:induction false} ExecInv<T>(s: State<T>, turns: seq<Turn<T>>)
    requires Inv(s)
    ensures Inv(Exec(s, turns))
    decreases |turns|
  {
    if turns != [] {
      NextInv(s, turns[0]);
      ExecInv(Next(s, turns[0]), turns[1..]);
    }
  }

  /** The run of a schedule, starting from a freshly constructed ring, ends in this state. */
  ghost predicate RunEndsIn<T>(s0: State<T>, turns: seq<Turn<T>>, s: State<T>) {
    && Init(s0)
    && (InitInv(s0); Exec(s0, turns) == s)
  }

  ghost predicate Reachable<T(!new)>(s: State<T>) {
    exists s0: State<T>, turns: seq<Turn<T>> :: RunEndsIn(s0, turns, s)
  }

  /** The invariant holds in every state of every run. */
  lemma ReachableInv<T(!new)>(s: State<T>)
    requires Reachable(s)
    ensures Inv(s)
  {
    var s0: State<T>, turns: seq<Turn<T>> :| RunEndsIn(s0, turns, s);
    InitInv(s0);
    ExecInv(s0, turns);
  }

  /** First in, first out across all threads: whatever the interleaving, the items fetched are
      the first items stored, in the same order, and the items in between sit in the ring at
      consecutive slots after the last fetched one; never more than the capacity. */
  lemma FifoPrefix<T(!new)>(s: State<T>)
    requires Reachable(s)
    ensures |s.fetched| <= |s.stored| <= |s.fetched| + s.cap
    ensures forall i :: 0 <= i < |s.fetched| ==> s.fetched[i].item == s.stored[i].item
    ensures |s.ring| == s.cap > 0
    ensures forall i :: |s.fetched| <= i < |s.stored| ==> s.ring[i % s.cap] == s.stored[i].item
  {
    ReachableInv(s);
  }

  // ----- what the threads were called with, and what they returned -----

  /** The arguments of the calls of `Push` by producer t that got past the space semaphore: the items
      of the turns at which t stood at its call and the semaphore was positive. */
  ghost function Calls<T>(s: State<T>, turns: seq<Turn<T>>, t: nat): seq<T>
    requires Inv(s)
    decreases |turns|
  {
    if turns == [] then []
    else
      NextInv(s, turns[0]);
      CallAt(s, turns[0], t) + Calls(Next(s, turns[0]), turns[1..], t)
  }

  ghost function CallAt<T>(s: State<T>, turn: Turn<T>, t: nat): seq<T> {
    match turn
    case Producer(p, item) =>
      if p == t < |s.producers| && s.producers[t].PushCall? && s.pspace > 0 then [item] else []
    case Consumer(_) => []
  }

  /** What the calls of `Pop` by consumer t returned: what it held whenever it took its last step. */
  ghost function Returns<T>(s: State<T>, turns: seq<Turn<T>>, t: nat): seq<T>
    requires Inv(s)
    decreases |turns|
  {
    if turns == [] then []
    else
      NextInv(s, turns[0]);
      ReturnAt(s, turns[0], t) + Returns(Next(s, turns[0]), turns[1..], t)
  }

  ghost function ReturnAt<T>(s: State<T>, turn: Turn<T>, t: nat): seq<T> {
    match turn
    case Producer(_, _) => []
    case Consumer(c) =>
      if c == t < |s.consumers| && s.consumers[t].PopUnlocked? then [s.consumers[t].out] else []
  }

  lemma NextLogs<T>(s: State<T>, turn: Turn<T>, t: nat)
    requires Inv(s)
    ensures var s' := Next(s, turn);
            && |s'.producers| == |s.producers| && |s'.consumers| == |s.consumers|
            && |s'.accepted| == |s.accepted| && |s'.returned| == |s.returned|
            && (t < |s.producers| ==> s'.accepted[t] == s.accepted[t] + CallAt(s, turn, t))
            && (t < |s.consumers| ==> s'.returned[t] == s.returned[t] + ReturnAt(s, turn, t))
  {
    match turn
    case Producer(p, item) => if p < |s.producers| { PushLogs(s, p, item, t); }
    case Consumer(c) => if c < |s.consumers| { PopLogs(s, c, t); }
  }

  lemma PushLogs<T>(s: State<T>, p: nat, item: T, t: nat)
    requires CanPush(s, p)
    ensures var s' := PushStep(s, p, item);
            && |s'.producers| == |s.producers| && |s'.accepted| == |s.accepted|
            && s'.consumers == s.consumers && s'.returned == s.returned
            && (t < |s.producers| ==> s'.accepted[t] == s.accepted[t] + CallAt(s, Producer(p, item), t))
  {
    assert t < |s.producers| ==> s.accepted[t] + [] == s.accepted[t];
  }

  lemma PopLogs<T>(s: State<T>, c: nat, t: nat)
    requires CanPop(s, c)
    ensures var s' := PopStep(s, c);
            && |s'.consumers| == |s.consumers| && |s'.returned| == |s.returned|
            && s'.producers == s.producers && s'.accepted == s.accepted
            && (t < |s.consumers| ==> s'.returned[t] == s.returned[t] + ReturnAt(s, Consumer(c), t))
  {
    assert t < |s.consumers| ==> s.returned[t] + [] == s.returned[t];
  }

  /** The two logs are what the schedule says. */
  lemma {:induction false} ExecLogs<T>(s: State<T>, turns: seq<Turn<T>>, t: nat)
    requires Inv(s)
    ensures var s' := Exec(s, turns);
            && |s'.producers| == |s.producers| && |s'.consumers| == |s.consumers|
            && |s'.accepted| == |s.accepted| && |s'.returned| == |s.returned|
            && (t < |s.producers| ==> s'.accepted[t] == s.accepted[t] + Calls(s, turns, t))
            && (t < |s.consumers| ==> s'.returned[t] == s.returned[t] + Returns(s, turns, t))
    decreases |turns|
  {
    if turns == [] {
      assert t < |s.producers| ==> s.accepted[t] + [] == s.accepted[t];
      assert t < |s.consumers| ==> s.returned[t] + [] == s.returned[t];
    } else {
      var m := Next(s, turns[0]);
      NextInv(s, turns[0]);
      NextLogs(s, turns[0], t);
      ExecLogs(m, turns[1..], t);
      if t < |s.producers| {
        Assoc(s.accepted[t], CallAt(s, turns[0], t), Calls(m, turns[1..], t));
      }
      if t < |s.consumers| {
        Assoc(s.returned[t], ReturnAt(s, turns[0], t), Returns(m, turns[1..], t));
      }
    }
  }

  lemma AllLogs<T>(s: State<T>, turns: seq<Turn<T>>)
    requires Inv(s)
    ensures var s' := Exec(s, turns);
            && |s'.accepted| == |s.accepted| && |s'.returned| == |s.returned|
            && (forall t :: 0 <= t < |s.accepted| ==> s'.accepted[t] == s.accepted[t] + Calls(s, turns, t))
            && (forall t :: 0 <= t < |s.returned| ==> s'.returned[t] == s.returned[t] + Returns(s, turns, t))
  {
    ExecLogs(s, turns, 0);
    forall t: nat ensures var s' := Exec(s, turns);
            && (t < |s.accepted| ==> s'.accepted[t] == s.accepted[t] + Calls(s, turns, t))
            && (t < |s.returned| ==> s'.returned[t] == s.returned[t] + Returns(s, turns, t))
    {
      ExecLogs(s, turns, t);
    }
  }

  /** Exactly once: in every run the arguments of every producer's calls are stored in call order,
      with at most the last one still on its way; every consumer's calls return exactly what it
      fetched, in order, apart from the one it still holds. */
  lemma ExactlyOnce<T>(s0: State<T>, turns: seq<Turn<T>>, t: nat)
    requires Init(s0)
    ensures Inv(s0)
    ensures var s := Exec(s0, turns);
            && |s.producers| == |s0.producers| && |s.consumers| == |s0.consumers|
            && (t < |s.producers| ==>
                  && Calls(s0, turns, t) == By(s.stored, t) + Carried(s.producers[t])
                  && |Carried(s.producers[t])| == Bit(s.producers[t].HasSpace? || s.producers[t].PushLocked?))
            && (t < |s.consumers| ==>
                  && By(s.fetched, t) == Returns(s0, turns, t) + Holding(s.consumers[t])
                  && |Holding(s.consumers[t])| == Bit(Unreturned(s.consumers[t])))
  {
    InitInv(s0);
    ExecInv(s0, turns);
    ExecLogs(s0, turns, t);
    assert [] + Calls(s0, turns, t) == Calls(s0, turns, t);
    assert [] + Returns(s0, turns, t) == Returns(s0, turns, t);
  }

  predicate PushInFlight<T>(pc: PushPc<T>) { !pc.PushCall? }
  predicate PopInFlight<T>(pc: PopPc<T>) { !pc.PopCall? }

  lemma {:induction false} CountSplit<A>(s: seq<A>, p: A -> bool, q: A -> bool, r: A -> bool)
    requires forall a :: Bit(p(a)) + Bit(q(a)) == Bit(r(a))
    ensures Count(s, p) + Count(s, q) == Count(s, r)
  {
    if s != [] {
      CountSplit(s[1..], p, q, r);
    }
  }

  /** The two semaphores and the threads between their P and their V always add up to the
      capacity, although V comes after the unlock and posts may overtake one another. */
  lemma SemaphoreConservation<T(!new)>(s: State<T>)
    requires Reachable(s)
    ensures s.pspace >= 0 && s.cdata >= 0
    ensures s.pspace + s.cdata + Count(s.producers, PushInFlight) + Count(s.consumers, PopInFlight) == s.cap
  {
    ReachableInv(s);
    CountSplit(s.producers, Reserved, Unposted, PushInFlight);
    CountSplit(s.consumers, Claimed, Unreturned, PopInFlight);
  }

  /** Although producers and consumers use different mutexes, a producer about to store and a
      consumer about to fetch are at different, valid slots; and two threads inside the same
      critical section are the same thread. */
  lemma SlotsDisjoint<T(!new)>(s: State<T>, p: nat, c: nat)
    requires Reachable(s)
    requires p < |s.producers| && s.producers[p].PushLocked?
    requires c < |s.consumers| && s.consumers[c].PopLocked?
    ensures 0 <= s.pStep < |s.ring| && 0 <= s.cStep < |s.ring|
    ensures s.pStep != s.cStep
    ensures forall p' :: 0 <= p' < |s.producers| && PushHolds(s.producers[p']) ==> p' == p
    ensures forall c' :: 0 <= c' < |s.consumers| && PopHolds(s.consumers[c']) ==> c' == c
  {
    ReachableInv(s);
    CountWitness(s.producers, p, Reserved);
    CountWitness(s.consumers, c, Claimed);
    ModDistinct(|s.fetched|, |s.stored|, s.cap);
  }

  // ----- refinement: a bounded queue whose operations are atomic -----

  /** The queue the ring stands for: what has been stored and not yet fetched. */
  ghost function Queue<T>(s: State<T>): seq<T>
    requires |s.fetched| <= |s.stored|
  {
    seq(|s.stored| - |s.fetched|, i requires 0 <= i < |s.stored| - |s.fetched| => s.stored[|s.fetched| + i].item)
  }

  lemma PushQueue<T>(s: State<T>, t: nat, item: T)
    requires CanPush(s, t) && |s.fetched| <= |s.stored|
    ensures PushStep(s, t, item).fetched == s.fetched && |s.stored| <= |PushStep(s, t, item).stored|
    ensures Queue(PushStep(s, t, item)) == Queue(s) + if s.producers[t].PushLocked? then [s.producers[t].item] else []
  {
  }

  lemma PopQueue<T>(s: State<T>, t: nat)
    requires CanPop(s, t) && |s.fetched| <= |s.stored|
    requires s.consumers[t].PopLocked? ==> |s.fetched| < |s.stored|
    ensures PopStep(s, t).stored == s.stored && |PopStep(s, t).fetched| <= |s.stored|
    ensures Queue(PopStep(s, t)) == if s.consumers[t].PopLocked? then Queue(s)[1..] else Queue(s)
  {
  }

  /** A producer about to store finds room. */
  lemma AboutToStore<T>(s: State<T>, t: nat)
    requires Inv(s) && t < |s.producers| && s.producers[t].PushLocked?
    ensures |Queue(s)| < s.cap && s.pStep == |s.stored| % s.cap
  {
    CountWitness(s.producers, t, Reserved);
  }

  /** A consumer about to fetch finds the oldest item under its index. */
  lemma AboutToFetch<T>(s: State<T>, t: nat)
    requires Inv(s) && t < |s.consumers| && s.consumers[t].PopLocked?
    ensures |Queue(s)| > 0 && s.cStep == |s.fetched| % s.cap && s.ring[s.cStep] == Queue(s)[0]
    ensures PopStep(s, t).consumers[t] == Fetched(Queue(s)[0])
  {
    CountWitness(s.consumers, t, Claimed);
  }

  /** One producer statement, in terms of the queue. */
  lemma PushEffect<T>(s: State<T>, t: nat, item: T)
    requires Inv(s) && t < |s.producers|
    ensures var s' := PushStep(s, t, item);
            && Inv(s')
            && if s.producers[t].PushLocked? then |Queue(s)| < s.cap && Queue(s') == Queue(s) + [s.producers[t].item]
               else Queue(s') == Queue(s)
  {
    PushStepInv(s, t, item);
    if s.producers[t].PushLocked? {
      AboutToStore(s, t);
    }
    PushQueue(s, t, item);
  }

  /** One consumer statement, in terms of the queue. */
  lemma PopEffect<T>(s: State<T>, t: nat)
    requires Inv(s) && t < |s.consumers|
    ensures var s' := PopStep(s, t);
            && Inv(s')
            && if s.consumers[t].PopLocked? then
                 |Queue(s)| > 0 && s'.consumers[t] == Fetched(Queue(s)[0]) && Queue(s') == Queue(s)[1..]
               else Queue(s') == Queue(s)
  {
    PopStepInv(s, t);
    if s.consumers[t].PopLocked? {
      AboutToFetch(s, t);
    }
    PopQueue(s, t);
  }

  /** Each producer statement leaves the queue alone, or appends the producer's own item to a
      queue that is not full. */
  lemma PushRefinesBoundedQueue<T(!new)>(s: State<T>, t: nat, item: T)
    requires Reachable(s) && t < |s.producers|
    ensures Inv(s)
    ensures var q, q' := Queue(s), Queue(Next(s, Producer(t, item)));
            if s.producers[t].PushLocked? then |q| < s.cap && q' == q + [s.producers[t].item] else q' == q
  {
    ReachableInv(s);
    PushEffect(s, t, item);
  }

  /** Each consumer statement leaves the queue alone, or hands the oldest item of a queue that
      is not empty to that consumer. */
  lemma PopRefinesBoundedQueue<T(!new)>(s: State<T>, t: nat)
    requires Reachable(s) && t < |s.consumers|
    ensures Inv(s)
    ensures var s' := Next(s, Consumer(t));
            if s.consumers[t].PopLocked? then
              |Queue(s)| > 0 && s'.consumers[t] == Fetched(Queue(s)[0]) && Queue(s') == Queue(s)[1..]
            else Queue(s') == Queue(s)
  {
    ReachableInv(s);
    PopEffect(s, t);
  }

  // ----- progress -----

  predicate PushBlocked<T>(s: State<T>, t: nat)
    requires t < |s.producers|
  {
    || (s.producers[t].PushCall? && s.pspace <= 0)
    || (s.producers[t].HasSpace? && s.pMutex != Free)
  }

  predicate PopBlocked<T>(s: State<T>, t: nat)
    requires t < |s.consumers|
  {
    || (s.consumers[t].PopCall? && s.cdata <= 0)
    || (s.consumers[t].HasData? && s.cMutex != Free)
  }

  /** A statement that does not block takes its thread one statement further. */
  lemma PushAdvances<T>(s: State<T>, t: nat, item: T)
    requires CanPush(s, t)
    ensures var s' := PushStep(s, t, item);
            && (s' == s <==> PushBlocked(s, t))
            && s'.producers == s.producers[t := s'.producers[t]] && s'.consumers == s.consumers
            && (!PushBlocked(s, t) && !s.producers[t].PushCall? ==>
                  s'.accepted == s.accepted && PushLeft(s'.producers[t]) == PushLeft(s.producers[t]) - 1)
  {
    var s' := PushStep(s, t, item);
    assert !PushBlocked(s, t) ==> s'.producers[t] != s.producers[t];
  }

  lemma PopAdvances<T>(s: State<T>, t: nat)
    requires CanPop(s, t)
    ensures var s' := PopStep(s, t);
            && (s' == s <==> PopBlocked(s, t))
            && s'.consumers == s.consumers[t := s'.consumers[t]] && s'.producers == s.producers
            && s'.accepted == s.accepted
            && (!PopBlocked(s, t) && !s.consumers[t].PopCall? ==>
                  PopLeft(s'.consumers[t]) == PopLeft(s.consumers[t]) - 1)
  {
    var s' := PopStep(s, t);
    assert !PopBlocked(s, t) ==> s'.consumers[t] != s.consumers[t];
  }

  /** A thread inside a critical section, or past it, is never blocked: the semaphore was taken
      before the mutex, so no mutex holder waits. */
  lemma HolderNeverBlocks<T(!new)>(s: State<T>, t: nat, item: T)
    requires Reachable(s)
    ensures Inv(s)
    ensures t < |s.producers| && !s.producers[t].PushCall? && !s.producers[t].HasSpace? ==> Next(s, Producer(t, item)) != s
    ensures t < |s.consumers| && !s.consumers[t].PopCall? && !s.consumers[t].HasData? ==> Next(s, Consumer(t)) != s
  {
    ReachableInv(s);
    if t < |s.producers| {
      PushAdvances(s, t, item);
    }
    if t < |s.consumers| {
      PopAdvances(s, t);
    }
  }

  /** A turn of a thread has no effect exactly when it is about to wait for a semaphore that is zero, or
      for a mutex that is taken. */
  lemma BlocksIff<T(!new)>(s: State<T>, t: nat, item: T)
    requires Reachable(s)
    ensures Inv(s)
    ensures t < |s.producers| ==>
              (Next(s, Producer(t, item)) == s <==>
               (s.producers[t].PushCall? && s.pspace == 0) || (s.producers[t].HasSpace? && s.pMutex != Free))
    ensures t < |s.consumers| ==>
              (Next(s, Consumer(t)) == s <==>
               (s.consumers[t].PopCall? && s.cdata == 0) || (s.consumers[t].HasData? && s.cMutex != Free))
  {
    ReachableInv(s);
    if t < |s.producers| {
      PushAdvances(s, t, item);
    }
    if t < |s.consumers| {
      PopAdvances(s, t);
    }
  }

  predicate AllCalling<T>(s: State<T>) {
    && (forall t :: 0 <= t < |s.producers| ==> s.producers[t].PushCall?)
    && (forall t :: 0 <= t < |s.consumers| ==> s.consumers[t].PopCall?)
  }

  lemma SomeProducerMoves<T>(s: State<T>, p: nat, item: T) returns (t: nat)
    requires Inv(s) && p < |s.producers| && !s.producers[p].PushCall?
    ensures t < |s.producers| && !s.producers[t].PushCall? && PushStep(s, t, item) != s
  {
    t := if s.pMutex.HeldBy? then s.pMutex.thread else p;
    PushAdvances(s, t, item);
  }

  lemma SomeConsumerMoves<T>(s: State<T>, c: nat) returns (t: nat)
    requires Inv(s) && c < |s.consumers| && !s.consumers[c].PopCall?
    ensures t < |s.consumers| && !s.consumers[t].PopCall? && PopStep(s, t) != s
  {
    t := if s.cMutex.HeldBy? then s.cMutex.thread else c;
    PopAdvances(s, t);
  }

  /** Some thread that is inside an operation can move. */
  lemma SomeoneInsideMoves<T>(s: State<T>, item: T) returns (turn: Turn<T>)
    requires Inv(s) && !AllCalling(s)
    ensures turn.Producer? ==> turn.p < |s.producers| && !s.producers[turn.p].PushCall?
    ensures turn.Consumer? ==> turn.c < |s.consumers| && !s.consumers[turn.c].PopCall?
    ensures Next(s, turn) != s
  {
    if p :| 0 <= p < |s.producers| && !s.producers[p].PushCall? {
      var t := SomeProducerMoves(s, p, item);
      turn := Producer(t, item);
    } else {
      var c :| 0 <= c < |s.consumers| && !s.consumers[c].PopCall?;
      var t := SomeConsumerMoves(s, c);
      turn := Consumer(t);
    }
  }

  lemma NobodyCounted<T>(s: State<T>)
    requires AllCalling(s)
    ensures NReserved(s) == NUnposted(s) == NClaimed(s) == NUnreturned(s) == 0
    ensures Left(s) == 0
  {
    CountNone(s.producers, Reserved);
    CountNone(s.producers, Unposted);
    CountNone(s.consumers, Claimed);
    CountNone(s.consumers, Unreturned);
    SumZero(s.producers, PushLeft);
    SumZero(s.consumers, PopLeft);
  }

  /** With a producer and a consumer at work, no reachable state is a deadlock. */
  lemma NoDeadlock<T(!new)>(s: State<T>, item: T) returns (turn: Turn<T>)
    requires Reachable(s) && |s.producers| > 0 && |s.consumers| > 0
    ensures Inv(s)
    ensures Next(s, turn) != s
  {
    ReachableInv(s);
    if AllCalling(s) {
      NobodyCounted(s);
      PushAdvances(s, 0, item);
      PopAdvances(s, 0);
      turn := if s.pspace > 0 then Producer(0, item) else Consumer(0);
    } else {
      turn := SomeoneInsideMoves(s, item);
    }
  }

  function PushLeft<T>(pc: PushPc<T>): nat {
    match pc
    case PushCall => 0
    case HasSpace(_) => 6
    case PushLocked(_) => 5
    case Stored => 4
    case PushStepped => 3
    case PushWrapped => 2
    case PushUnlocked => 1
  }

  function PopLeft<T>(pc: PopPc<T>): nat {
    match pc
    case PopCall => 0
    case HasData => 6
    case PopLocked => 5
    case Fetched(_) => 4
    case PopStepped(_) => 3
    case PopWrapped(_) => 2
    case PopUnlocked(_) => 1
  }

  /** How many statements the operations under way still have to execute. */
  ghost function Left<T>(s: State<T>): nat {
    Sum(s.producers, PushLeft) + Sum(s.consumers, PopLeft)
  }

  lemma InsideMoveShortens<T>(s: State<T>, turn: Turn<T>)
    requires Inv(s) && Next(s, turn) != s
    requires turn.Producer? ==> turn.p < |s.producers| && !s.producers[turn.p].PushCall?
    requires turn.Consumer? ==> turn.c < |s.consumers| && !s.consumers[turn.c].PopCall?
    ensures Left(Next(s, turn)) == Left(s) - 1
    ensures Next(s, turn).accepted == s.accepted
  {
    var s' := Next(s, turn);
    match turn
    case Producer(t, item) =>
      PushAdvances(s, t, item);
      SumUpdate(s.producers, t, s'.producers[t], PushLeft);
    case Consumer(t) =>
      PopAdvances(s, t);
      SumUpdate(s.consumers, t, s'.consumers[t], PopLeft);
  }

  /** Every operation that got past its semaphore can be completed without starting another:
      from any reachable state some schedule of exactly the statements still to be executed
      brings all threads back to their next call, with every accepted item stored and every
      fetched item returned, and the two semaphores sharing the whole capacity. */
  lemma {:induction false} OperationsComplete<T>(s: State<T>, item: T) returns (turns: seq<Turn<T>>)
    requires Inv(s)
    ensures |turns| == Left(s) && Inv(Exec(s, turns))
    ensures var s' := Exec(s, turns);
            && AllCalling(s') && s'.accepted == s.accepted
            && s'.pspace + s'.cdata == s'.cap && s'.cdata == |Queue(s')|
            && forall t :: 0 <= t < |s'.producers| ==> By(s'.stored, t) == s'.accepted[t]
    decreases Left(s)
  {
    if AllCalling(s) {
      turns := [];
      NobodyCounted(s);
    } else {
      var turn := SomeoneInsideMoves(s, item);
      InsideMoveShortens(s, turn);
      NextInv(s, turn);
      var rest := OperationsComplete(Next(s, turn), item);
      turns := [turn] + rest;
      assert turns[1..] == rest;
    }
  }

  // ----- every way of finishing -----

  /** An effective statement of a thread that is inside an operation. */
  ghost predicate Settles<T>(s: State<T>, turn: Turn<T>)
    requires Inv(s)
  {
    && Next(s, turn) != s
    && match turn
       case Producer(t, _) => t < |s.producers| && !s.producers[t].PushCall?
       case Consumer(t) => t < |s.consumers| && !s.consumers[t].PopCall?
  }

  ghost predicate AllSettle<T>(s: State<T>, turns: seq<Turn<T>>)
    requires Inv(s)
    decreases |turns|
  {
    turns == [] ||
    (Settles(s, turns[0]) && (NextInv(s, turns[0]); AllSettle(Next(s, turns[0]), turns[1..])))
  }

  /** However the operations under way go on, as long as no new one starts, each effective
      statement uses up one of those they have left; so no schedule of such statements is longer. */
  lemma {:induction false} SettlingIsBounded<T>(s: State<T>, turns: seq<Turn<T>>)
    requires Inv(s) && AllSettle(s, turns)
    ensures Inv(Exec(s, turns)) && |turns| + Left(Exec(s, turns)) == Left(s)
    ensures Exec(s, turns).accepted == s.accepted
    decreases |turns|
  {
    if turns != [] {
      InsideMoveShortens(s, turns[0]);
      NextInv(s, turns[0]);
      SettlingIsBounded(Next(s, turns[0]), turns[1..]);
    }
  }

  /** A schedule of effective statements of operations under way that cannot be extended has
      completed all of them, whichever schedule it is. */
  lemma EveryScheduleCompletes<T(!new)>(s: State<T>, turns: seq<Turn<T>>, item: T)
    requires Inv(s) && AllSettle(s, turns)
    requires Inv(Exec(s, turns)) && forall turn :: !Settles(Exec(s, turns), turn)
    ensures |turns| == Left(s)
    ensures var s' := Exec(s, turns);
            && AllCalling(s') && s'.accepted == s.accepted
            && s'.pspace + s'.cdata == s'.cap && s'.cdata == |Queue(s')|
            && forall t :: 0 <= t < |s'.producers| ==> By(s'.stored, t) == s'.accepted[t]
  {
    var s' := Exec(s, turns);
    SettlingIsBounded(s, turns);
    if !AllCalling(s') {
      var turn := SomeoneInsideMoves(s', item);
      assert Settles(s', turn);
    }
    NobodyCounted(s');
  }
}
