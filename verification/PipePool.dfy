/** The process pool over pipes: descriptor tables under `pipe`, `fork`, `close` and `dup2`, the
    commands in the pipes, and the shutdown that waits for one worker after the other. */
module PipePool {
  import opened Counting
  import opened Descriptors
  import opened Modular
  import opened Wrappers

  datatype End = Terminal | ReadEnd(pipe: nat) | WriteEnd(pipe: nat)

  type Table = map<nat, End>

  /** A worker: its descriptors, whether it still runs, and the commands it has run. */
  datatype Worker = Worker(fds: Table, alive: bool, executed: seq<int>)

  /** The parent's descriptors, its channels (the write end for each worker), what each pipe
      holds, and the workers. */
  datatype Pool = Pool(parent: Table, channels: seq<nat>, pipes: seq<seq<int>>, workers: seq<Worker>)

  function ToSet(s: seq<nat>): set<nat> {
    set x | x in s
  }

  // ----- starting a worker -----

  /** What a child does with the table it inherits: close the earlier write ends (the `oldfds`
      loop, if there is one) and its own, and move its read end to descriptor 0. */
  function ChildTable(inherited: Table, oldfds: seq<nat>, r: nat, w: nat, cleanup: bool): Table
    requires r in inherited && r != w && r !in oldfds
  {
    var t := if cleanup then inherited - ToSet(oldfds) else inherited;
    var t := t - {w};
    var t := t[0 := t[r]];
    t - {r}
  }

  /** One iteration of the loop in `InitProcessPool`. */
  function Spawn(s: Pool, cleanup: bool): Pool
    requires ToSet(s.channels) <= s.parent.Keys
  {
    var k := |s.pipes|;
    var r := LowestFree(s.parent.Keys, 0);
    var t := s.parent[r := ReadEnd(k)];
    var w := LowestFree(s.parent.Keys + {r}, 0);
    var t := t[w := WriteEnd(k)];
    assert r !in s.channels;
    var child := Worker(ChildTable(t, s.channels, r, w, cleanup), true, []);
    Pool(t - {r}, s.channels + [w], s.pipes + [[]], s.workers + [child])
  }

  /** The write ends, by position. */
  function Ends(channels: seq<nat>): (t: Table)
    ensures t.Keys == ToSet(channels)
  {
    if channels == [] then map[]
    else
      var n := |channels| - 1;
      assert channels == channels[..n] + [channels[n]];
      Ends(channels[..n])[channels[n] := WriteEnd(n)]
  }

  predicate Distinct(s: seq<nat>) {
    forall i, j :: 0 <= i < j < |s| ==> s[i] != s[j]
  }

  /** The table the program starts with: nothing is a pipe end. */
  predicate Plain(base: Table) {
    forall fd :: fd in base ==> base[fd] == Terminal
  }

  /** Every table in the pool, exactly. */
  predicate Shape(s: Pool, base: Table, cleanup: bool) {
    && |s.workers| == |s.channels| == |s.pipes|
    && Distinct(s.channels)
    && 0 !in s.channels
    && ToSet(s.channels) !! base.Keys
    && s.parent == base + Ends(s.channels)
    && forall i :: 0 <= i < |s.workers| ==> s.workers[i].fds == WorkerTable(s.channels, base, cleanup, i)
  }

  /** A worker's table: what the program started with, its own pipe as standard input if there was
      a standard input before, and, when there is no cleanup, the write ends of all earlier
      workers. */
  function WorkerTable(channels: seq<nat>, base: Table, cleanup: bool, i: nat): Table
    requires i <= |channels|
  {
    OwnTable(base, if cleanup then map[] else Ends(channels[..i]), i)
  }

  function OwnTable(base: Table, early: Table, i: nat): Table {
    if 0 in base then (base + early)[0 := ReadEnd(i)] else base + early
  }

  lemma EndsAt(channels: seq<nat>, i: nat)
    requires Distinct(channels) && i < |channels|
    ensures channels[i] in Ends(channels) && Ends(channels)[channels[i]] == WriteEnd(i)
  {
    if i < |channels| - 1 {
      EndsAt(channels[..|channels| - 1], i);
    }
  }

  /** The child ends up with what the program started with, its read end as standard input unless
      the read end was standard input from the start, and, without the cleanup, every earlier
      write end. */
  lemma ChildTableIs(base: Table, channels: seq<nat>, r: nat, w: nat, k: nat, cleanup: bool)
    requires Plain(base) && ToSet(channels) !! base.Keys
    requires r != w && r !in base && w !in base && r !in channels && w !in channels
    requires (r == 0 <==> 0 !in base) && w != 0 && 0 !in channels
    ensures ChildTable((base + Ends(channels))[r := ReadEnd(k)][w := WriteEnd(k)], channels, r, w, cleanup)
         == OwnTable(base, if cleanup then map[] else Ends(channels), k)
  {
    var t := (base + Ends(channels))[r := ReadEnd(k)][w := WriteEnd(k)];
    var early := if cleanup then map[] else Ends(channels);
    ClosedEarly(base, channels, r, w, k, cleanup);
    if r == 0 {
      assert (base + early)[r := ReadEnd(k)][0 := ReadEnd(k)] - {r} == base + early;
    } else {
      assert (base + early)[r := ReadEnd(k)][0 := ReadEnd(k)] - {r} == (base + early)[0 := ReadEnd(k)];
    }
  }

  /** The table after the child has closed all write ends it does not keep. */
  lemma ClosedEarly(base: Table, channels: seq<nat>, r: nat, w: nat, k: nat, cleanup: bool)
    requires ToSet(channels) !! base.Keys
    requires r != w && r !in base && w !in base && r !in channels && w !in channels
    ensures var t := (base + Ends(channels))[r := ReadEnd(k)][w := WriteEnd(k)];
            (if cleanup then t - ToSet(channels) else t) - {w}
            == (base + if cleanup then map[] else Ends(channels))[r := ReadEnd(k)]
  {
  }

  lemma ParentTableIs(base: Table, channels: seq<nat>, r: nat, w: nat, k: nat)
    requires r != w && r !in base && w !in base && r !in channels && w !in channels && k == |channels|
    ensures (base + Ends(channels))[r := ReadEnd(k)][w := WriteEnd(k)] - {r} == base + Ends(channels + [w])
  {
    assert (channels + [w])[..k] == channels;
    assert Ends(channels + [w]) == Ends(channels)[w := WriteEnd(k)];
  }

  /** Starting one more worker keeps the shape. */
  lemma SpawnShape(s: Pool, base: Table, cleanup: bool)
    requires Plain(base) && Shape(s, base, cleanup)
    ensures ToSet(s.channels) <= s.parent.Keys
    ensures Shape(Spawn(s, cleanup), base, cleanup)
  {
    var k := |s.workers|;
    var r := LowestFree(s.parent.Keys, 0);
    var w := LowestFree(s.parent.Keys + {r}, 0);
    FreshEnds(s, base, cleanup, r, w);
    ChildTableIs(base, s.channels, r, w, k, cleanup);
    ParentTableIs(base, s.channels, r, w, k);
    OneMoreChannel(s.channels, w, base);
    TableKept(s.channels, w, base, cleanup, k);
    TablesKept(s.channels, s.workers, w, base, cleanup);
    assert s.channels[..k] == s.channels;
  }

  lemma TablesKept(channels: seq<nat>, workers: seq<Worker>, w: nat, base: Table, cleanup: bool)
    requires |workers| == |channels|
    requires forall i :: 0 <= i < |workers| ==> workers[i].fds == WorkerTable(channels, base, cleanup, i)
    ensures forall i :: 0 <= i < |workers| ==> workers[i].fds == WorkerTable(channels + [w], base, cleanup, i)
  {
    forall i | 0 <= i < |workers| ensures workers[i].fds == WorkerTable(channels + [w], base, cleanup, i) {
      TableKept(channels, w, base, cleanup, i);
    }
  }

  lemma OneMoreChannel(channels: seq<nat>, w: nat, base: Table)
    requires Distinct(channels) && ToSet(channels) !! base.Keys && w !in channels && w !in base
    requires 0 !in channels && w != 0
    ensures 0 !in channels + [w]
    ensures Distinct(channels + [w]) && ToSet(channels + [w]) !! base.Keys
  {
    assert ToSet(channels + [w]) == ToSet(channels) + {w};
  }

  lemma FreshEnds(s: Pool, base: Table, cleanup: bool, r: nat, w: nat)
    requires Shape(s, base, cleanup)
    requires r == LowestFree(s.parent.Keys, 0) && w == LowestFree(s.parent.Keys + {r}, 0)
    ensures (r == 0 <==> 0 !in base) && w != 0 && r != w
    ensures r !in base && w !in base && r !in s.channels && w !in s.channels
    ensures ToSet(s.channels) <= s.parent.Keys
  {
    assert forall c :: c in s.channels ==> c in ToSet(s.channels);
  }

  lemma TableKept(channels: seq<nat>, w: nat, base: Table, cleanup: bool, i: nat)
    requires i <= |channels|
    ensures WorkerTable(channels + [w], base, cleanup, i) == WorkerTable(channels, base, cleanup, i)
  {
    assert (channels + [w])[..i] == channels[..i];
  }

  /** All workers run and have run nothing yet, and all pipes are empty. */
  predicate Started(s: Pool) {
    && (forall i :: 0 <= i < |s.workers| ==> s.workers[i].alive && s.workers[i].executed == [])
    && (forall i :: 0 <= i < |s.pipes| ==> s.pipes[i] == [])
  }

  lemma SpawnStarts(s: Pool, cleanup: bool)
    requires ToSet(s.channels) <= s.parent.Keys && Started(s)
    ensures Started(Spawn(s, cleanup)) && |Spawn(s, cleanup).workers| == |s.workers| + 1
  {
  }

  /** The pool after `InitProcessPool` has started n workers. */
  function InitPool(base: Table, n: nat, cleanup: bool): (s: Pool)
    requires Plain(base)
    ensures Shape(s, base, cleanup) && |s.workers| == n && Started(s)
  {
    if n == 0 then Pool(base, [], [], [])
    else
      var s := InitPool(base, n - 1, cleanup);
      SpawnShape(s, base, cleanup);
      SpawnStarts(s, cleanup);
      Spawn(s, cleanup)
  }

  // ----- who holds what -----

  predicate Holds(t: Table, p: nat) {
    exists fd :: fd in t && t[fd] == WriteEnd(p)
  }

  lemma {:induction false} EndsHold(channels: seq<nat>, fd: nat, p: nat)
    requires fd in Ends(channels) && Ends(channels)[fd] == WriteEnd(p)
    ensures p < |channels| && channels[p] == fd
    decreases |channels|
  {
    var n := |channels| - 1;
    if fd != channels[n] {
      EndsHold(channels[..n], fd, p);
    }
  }

  lemma EndsAreWriteEnds(channels: seq<nat>, fd: nat)
    requires fd in Ends(channels)
    ensures Ends(channels)[fd].WriteEnd?
  {
  }

  lemma ParentHolds(base: Table, channels: seq<nat>, p: nat)
    requires Plain(base) && Distinct(channels)
    ensures Holds(base + Ends(channels), p) <==> p < |channels|
  {
    var t := base + Ends(channels);
    if p < |channels| {
      EndsAt(channels, p);
      assert t[channels[p]] == WriteEnd(p);
    }
    if fd :| fd in t && t[fd] == WriteEnd(p) {
      EndsHold(channels, fd, p);
    }
  }

  lemma WorkerHolds(base: Table, channels: seq<nat>, cleanup: bool, i: nat, p: nat)
    requires Plain(base) && Distinct(channels) && ToSet(channels) !! base.Keys && i <= |channels|
    ensures Holds(WorkerTable(channels, base, cleanup, i), p) <==> !cleanup && p < i
  {
    var t := WorkerTable(channels, base, cleanup, i);
    var early := channels[..i];
    if !cleanup && p < i {
      EndsAt(early, p);
      assert channels[p] in channels && channels[p] in ToSet(channels);
      assert t[early[p]] == WriteEnd(p);
    }
    if fd :| fd in t && t[fd] == WriteEnd(p) {
      assert !cleanup && fd in Ends(early);
      EndsHold(early, fd, p);
    }
  }

  /** After initialisation no worker holds any write end, and the parent is the only writer of
      each pipe and holds no read end. */
  lemma ParentIsOnlyWriter(base: Table, n: nat)
    requires Plain(base)
    ensures var s := InitPool(base, n, true);
            && (forall p: nat :: Holds(s.parent, p) <==> p < n)
            && (forall i, p: nat :: 0 <= i < n ==> !Holds(s.workers[i].fds, p))
            && (forall fd :: fd in s.parent ==> !s.parent[fd].ReadEnd?)
  {
    var s := InitPool(base, n, true);
    forall p: nat ensures Holds(s.parent, p) <==> p < n {
      ParentHolds(base, s.channels, p);
    }
    forall i, p: nat | 0 <= i < n ensures !Holds(s.workers[i].fds, p) {
      WorkerHolds(base, s.channels, true, i, p);
    }
    forall fd | fd in s.parent ensures !s.parent[fd].ReadEnd? {
      if fd in Ends(s.channels) {
        EndsAreWriteEnds(s.channels, fd);
      }
    }
  }

  /** Every worker has its own pipe as standard input, and no other pipe end, if the program was
      started with a standard input; otherwise it has no standard input and no pipe end at all. */
  lemma WorkerReadsOwnPipe(base: Table, n: nat, i: nat, fd: nat)
    requires Plain(base) && i < n
    ensures var t := InitPool(base, n, true).workers[i].fds;
            && (0 in base ==> 0 in t && t[0] == ReadEnd(i))
            && (0 !in base ==> 0 !in t)
            && (fd in t && fd != 0 ==> t[fd] == Terminal)
  {
  }

  /** A new worker reads its pipe as standard input exactly when the parent's descriptor 0 was in
      use; otherwise the read end itself got descriptor 0, and the child closes it. */
  lemma ReadsPipeIff(s: Pool, cleanup: bool)
    requires ToSet(s.channels) <= s.parent.Keys
    ensures var t := Spawn(s, cleanup).workers[|s.workers|].fds;
            0 in t && t[0] == ReadEnd(|s.pipes|) <==> 0 in s.parent
  {
    var r := LowestFree(s.parent.Keys, 0);
    assert 0 !in s.parent ==> r == 0;
  }

  /** Without closing `oldfds`, worker i keeps the write end of every earlier worker. */
  lemma InheritedWriters(base: Table, n: nat, i: nat, p: nat)
    requires Plain(base) && i < n
    ensures Holds(InitPool(base, n, false).workers[i].fds, p) <==> p < i
  {
    WorkerHolds(base, InitPool(base, n, false).channels, false, i, p);
  }

  // ----- dealing out commands -----

  const TASKS := 4

  /** The command codes that a list of menu choices amounts to: it ends at the first choice that
      is not 1 to 4. */
  function Commands(choices: seq<int>): (cs: seq<int>)
    ensures forall i :: 0 <= i < |cs| ==> 0 <= cs[i] < TASKS
  {
    if choices == [] || choices[0] > 4 || choices[0] <= 0 then []
    else [choices[0] - 1] + Commands(choices[1..])
  }

  /** The menu: each choice from 1 to 4 is the command of the number below it, up to the first choice that
      is none of these. */
  lemma {:induction false} CommandsAre(choices: seq<int>)
    ensures var cs := Commands(choices);
            && |cs| <= |choices|
            && (forall k :: 0 <= k < |cs| ==> 1 <= choices[k] <= 4 && cs[k] == choices[k] - 1)
            && (|cs| < |choices| ==> choices[|cs|] < 1 || choices[|cs|] > 4)
    decreases |choices|
  {
    if choices != [] {
      CommandsAre(choices[1..]);
    }
  }

  /** Writing one command to a descriptor puts it into the pipe the descriptor leads to. */
  function Write(s: Pool, fd: nat, c: int): Pool
    requires fd in s.parent && s.parent[fd].WriteEnd? && s.parent[fd].pipe < |s.pipes|
  {
    var p := s.parent[fd].pipe;
    s.(pipes := s.pipes[p := s.pipes[p] + [c]])
  }

  predicate Reads(t: Table, p: nat) {
    exists fd :: fd in t && t[fd] == ReadEnd(p)
  }

  /** Somebody could still read this pipe. A write to a pipe without a reader kills the writer. */
  predicate HasReader(s: Pool, p: nat) {
    || Reads(s.parent, p)
    || exists j :: 0 <= j < |s.workers| && s.workers[j].alive && Reads(s.workers[j].fds, p)
  }

  /** Worker i's part of the commands when the k-th goes to worker k mod n. */
  function Share(cs: seq<int>, n: nat, i: nat): seq<int>
    requires n > 0
  {
    if cs == [] then []
    else
      var k := |cs| - 1;
      Share(cs[..k], n, i) + if k % n == i then [cs[k]] else []
  }

  lemma {:induction false} ShareSize(cs: seq<int>, n: nat, i: nat)
    requires i < n
    ensures |Share(cs, n, i)| == (|cs| + n - 1 - i) / n
    decreases |cs|
  {
    if cs == [] {
      DivModUnique(n - 1 - i, 0, n - 1 - i, n);
    } else {
      ShareSize(cs[..|cs| - 1], n, i);
      ShareGrows(|cs| - 1, n, i);
    }
  }

  /** Worker i's j-th command is command number n * j + i: it gets commands i, i + n, i + 2n, and
      so on, in this order. */
  lemma {:induction false} ShareAt(cs: seq<int>, n: nat, i: nat, j: nat)
    requires i < n && j < |Share(cs, n, i)|
    ensures 0 <= n * j + i < |cs| && Share(cs, n, i)[j] == cs[n * j + i]
    decreases |cs|
  {
    var k := |cs| - 1;
    var before := Share(cs[..k], n, i);
    if j < |before| {
      ShareAt(cs[..k], n, i, j);
    } else {
      ShareSize(cs[..k], n, i);
      ShareGrows(k, n, i);
    }
  }

  /** Rounding k up to the next number of worker i, for e between 0 and n. */
  lemma RoundUp(k: nat, n: nat, e: nat)
    requires n > 0 && e < n
    ensures (k + e) / n == if k % n + e < n then k / n else k / n + 1
  {
    var a, b := k / n, k % n;
    assert k == n * a + b;
    if b + e < n {
      DivModUnique(k + e, a, b + e, n);
    } else {
      assert n * (a + 1) == n * a + n;
      DivModUnique(k + e, a + 1, b + e - n, n);
    }
  }

  /** When the k-th command comes, worker i's share grows exactly if k mod n is i, and then k is
      the next number of worker i. */
  lemma ShareGrows(k: nat, n: nat, i: nat)
    requires i < n
    ensures (k + n - i) / n == (k + n - 1 - i) / n + Bit(k % n == i)
    ensures k % n == i ==> n * ((k + n - 1 - i) / n) + i == k
  {
    RoundUp(k, n, n - 1 - i);
    if i > 0 {
      RoundUp(k, n, n - i);
    } else {
      var a, b := k / n, k % n;
      assert k == n * a + b && n * (a + 1) == n * a + n;
      DivModUnique(k + n, a + 1, b, n);
    }
  }

  /** The workers' loads never differ by more than one, and earlier workers have the larger. */
  lemma SharesBalanced(cs: seq<int>, n: nat, i: nat, j: nat)
    requires i <= j < n
    ensures |Share(cs, n, j)| <= |Share(cs, n, i)| <= |Share(cs, n, j)| + 1
  {
    ShareSize(cs, n, i);
    ShareSize(cs, n, j);
    DivClose(|cs| + n - 1 - i, |cs| + n - 1 - j, n);
  }

  /** The i-th channel leads to the i-th worker's pipe. */
  predicate Wired(s: Pool) {
    && |s.channels| == |s.workers| == |s.pipes|
    && forall i :: 0 <= i < |s.channels| ==> s.channels[i] in s.parent && s.parent[s.channels[i]] == WriteEnd(i)
  }

  lemma ShapeIsWired(s: Pool, base: Table, cleanup: bool)
    requires Shape(s, base, cleanup)
    ensures Wired(s)
  {
    forall i | 0 <= i < |s.channels| ensures s.channels[i] in s.parent && s.parent[s.channels[i]] == WriteEnd(i) {
      EndsAt(s.channels, i);
    }
  }

  /** Sending the commands round robin, starting from worker 0: each worker's pipe gets its share,
      and nothing else changes. */
  function Deal(s: Pool, cs: seq<int>): (s': Pool)
    requires Wired(s) && |s.workers| > 0
    ensures s'.parent == s.parent && s'.channels == s.channels && s'.workers == s.workers
    ensures |s'.pipes| == |s.pipes|
    ensures forall i :: 0 <= i < |s.pipes| ==> s'.pipes[i] == s.pipes[i] + Share(cs, |s.workers|, i)
    decreases |cs|
  {
    if cs == [] then s
    else
      var k := |cs| - 1;
      var m := Deal(s, cs[..k]);
      Write(m, m.channels[k % |s.workers|], cs[k])
  }

  // ----- shutting down -----

  predicate Alive(w: Worker) { w.alive }

  /** The commands the task table has an entry for; a worker skips the others. */
  function Runs(cs: seq<int>): seq<int> {
    if cs == [] then []
    else Runs(cs[..|cs| - 1]) + if 0 <= cs[|cs| - 1] < TASKS then [cs[|cs| - 1]] else []
  }

  /** Of the commands it reads a worker runs exactly those from 0 to 3, each where it comes. */
  lemma {:induction false} RunsAre(a: seq<int>, c: int, b: seq<int>)
    ensures Runs(a + [c] + b) == Runs(a) + (if 0 <= c <= 3 then [c] else []) + Runs(b)
    decreases |b|
  {
    if b == [] {
      assert a + [c] + b == a + [c];
      assert (a + [c])[..|a|] == a;
    } else {
      var n := |b| - 1;
      assert a + [c] + b == (a + [c] + b[..n]) + [b[n]];
      assert ((a + [c] + b[..n]) + [b[n]])[..|a| + 1 + n] == a + [c] + b[..n];
      RunsAre(a, c, b[..n]);
    }
  }

  /** The pipe that worker i reads: the one its descriptor 0 leads to, if it does lead to one. */
  function Stdin(s: Pool, i: nat): (q: Option<nat>)
    requires i < |s.workers|
    ensures q.Some? ==> q.value < |s.pipes|
  {
    var t := s.workers[i].fds;
    if 0 in t && t[0].ReadEnd? && t[0].pipe < |s.pipes| then Some(t[0].pipe) else None
  }

  /** Nobody who still runs can write into the pipe. */
  predicate Unwritten(s: Pool, p: nat) {
    && !Holds(s.parent, p)
    && forall j :: 0 <= j < |s.workers| && s.workers[j].alive ==> !Holds(s.workers[j].fds, p)
  }

  /** Worker i can get to the end of what it reads: it reads a pipe, and nobody who still runs,
      itself included, can write into that pipe. A worker whose descriptor 0 leads to no pipe
      never gets there: its `read` fails, and it tries again for ever. */
  predicate SeesEof(s: Pool, i: nat) {
    && i < |s.workers| && s.workers[i].alive
    && Stdin(s, i).Some? && Unwritten(s, Stdin(s, i).value)
  }

  /** Worker i takes one command out of its pipe and runs it. */
  function Take(s: Pool, i: nat): Pool
    requires i < |s.workers| && Stdin(s, i).Some? && s.pipes[Stdin(s, i).value] != []
  {
    var q := Stdin(s, i).value;
    var w := s.workers[i];
    s.(pipes := s.pipes[q := s.pipes[q][1..]],
       workers := s.workers[i := w.(executed := w.executed + Runs([s.pipes[q][0]]))])
  }

  /** Worker i reads what is left in its pipe, runs it, sees the end and exits. */
  function Exit(s: Pool, i: nat): Pool
    requires i < |s.workers| && Stdin(s, i).Some?
  {
    var q := Stdin(s, i).value;
    var w := s.workers[i];
    s.(pipes := s.pipes[q := []],
       workers := s.workers[i := w.(alive := false, executed := w.executed + Runs(s.pipes[q]))])
  }

  lemma RunsOne(c: int)
    ensures Runs([c]) == if 0 <= c < TASKS then [c] else []
  {
    assert [c][..0] == [];
  }

  lemma {:induction false} RunsConcat(a: seq<int>, b: seq<int>)
    ensures Runs(a + b) == Runs(a) + Runs(b)
    decreases |b|
  {
    if b == [] {
      assert a + b == a;
    } else {
      assert (a + b)[..|a + b| - 1] == a + b[..|b| - 1];
      RunsConcat(a, b[..|b| - 1]);
    }
  }

  /** It makes no difference when a worker takes a command: reading early and then to the end is
      reading to the end, and reading before a later write is reading after it. */
  lemma TakeEarly(s: Pool, i: nat, fd: nat, c: int)
    requires i < |s.workers| && Stdin(s, i).Some? && s.pipes[Stdin(s, i).value] != []
    requires fd in s.parent && s.parent[fd].WriteEnd? && s.parent[fd].pipe < |s.pipes|
    ensures Exit(Take(s, i), i) == Exit(s, i)
    ensures Write(Take(s, i), fd, c) == Take(Write(s, fd, c), i)
  {
    ExitAfterTake(s, i);
    WriteAfterTake(s, i, fd, c);
  }

  lemma ExitAfterTake(s: Pool, i: nat)
    requires i < |s.workers| && Stdin(s, i).Some? && s.pipes[Stdin(s, i).value] != []
    ensures Exit(Take(s, i), i) == Exit(s, i)
  {
    var p := s.pipes[Stdin(s, i).value];
    var done := s.workers[i].executed;
    RunsConcat([p[0]], p[1..]);
    assert [p[0]] + p[1..] == p;
    assert (done + Runs([p[0]])) + Runs(p[1..]) == done + Runs(p);
    assert Exit(Take(s, i), i).workers == Exit(s, i).workers;
    assert Exit(Take(s, i), i).pipes == Exit(s, i).pipes;
  }

  lemma WriteAfterTake(s: Pool, i: nat, fd: nat, c: int)
    requires i < |s.workers| && Stdin(s, i).Some? && s.pipes[Stdin(s, i).value] != []
    requires fd in s.parent && s.parent[fd].WriteEnd? && s.parent[fd].pipe < |s.pipes|
    ensures Write(Take(s, i), fd, c) == Take(Write(s, fd, c), i)
  {
    var p := s.pipes[Stdin(s, i).value];
    assert (p + [c])[1..] == p[1..] + [c];
    assert Write(Take(s, i), fd, c).pipes == Take(Write(s, fd, c), i).pipes;
  }

  function FirstAtEof(s: Pool, k: nat): (j: nat)
    requires k <= |s.workers|
    ensures k <= j <= |s.workers|
    ensures j < |s.workers| ==> SeesEof(s, j)
    ensures j == |s.workers| ==> forall i :: k <= i < |s.workers| ==> !SeesEof(s, i)
    decreases |s.workers| - k
  {
    if k == |s.workers| || SeesEof(s, k) then k else FirstAtEof(s, k + 1)
  }

  /** Waiting for worker i: it may have to wait until others have exited, which takes their write
      ends away; it blocks for ever when no worker can exit and i is still there. */
  function WaitPid(s: Pool, i: nat): (r: Option<Pool>)
    requires i < |s.workers|
    ensures r.Some? ==> |r.value.workers| == |s.workers| && r.value.channels == s.channels
    decreases Count(s.workers, Alive)
  {
    if !s.workers[i].alive then Some(s)
    else if SeesEof(s, i) then Some(Exit(s, i))
    else
      var j := FirstAtEof(s, 0);
      if j == |s.workers| then None
      else
        CountUpdate(s.workers, j, Exit(s, j).workers[j], Alive);
        WaitPid(Exit(s, j), i)
  }

  /** The parent has closed worker i's channel. */
  function Closed(s: Pool, i: nat): Pool
    requires i < |s.channels|
  {
    s.(parent := s.parent - {s.channels[i]})
  }

  /** `QuitProcess` with the channels taken in the given order: close the write end, then wait. */
  function Quit(s: Pool, order: seq<nat>): (r: Option<Pool>)
    requires |s.channels| == |s.workers| && forall x :: x in order ==> x < |s.workers|
    decreases |order|
  {
    if order == [] then Some(s)
    else
      var i := order[0];
      assert i in order;
      match WaitPid(Closed(s, i), i)
      case None => None
      case Some(s') =>
        assert forall x :: x in order[1..] ==> x in order;
        Quit(s', order[1..])
  }

  /** Every worker once. */
  predicate Order(order: seq<nat>, n: nat) {
    && |order| == n && Distinct(order)
    && forall x :: x in order ==> x < n
  }

  function Forward(n: nat): (order: seq<nat>)
    ensures |order| == n && forall i :: 0 <= i < n ==> order[i] == i
  {
    seq(n, i requires 0 <= i < n => i)
  }

  function Reverse(n: nat): (order: seq<nat>)
    ensures |order| == n && forall i :: 0 <= i < n ==> order[i] == n - 1 - i
  {
    seq(n, i requires 0 <= i < n => n - 1 - i)
  }

  /** Worker i with the commands of pipe i run to the end. */
  function Finished(s: Pool, i: nat): Worker
    requires i < |s.workers| && i < |s.pipes|
  {
    s.workers[i].(alive := false, executed := s.workers[i].executed + Runs(s.pipes[i]))
  }

  /** The pool s0 after the workers in `done` have been shut down. */
  ghost predicate Partly(s: Pool, s0: Pool, done: set<nat>) {
    && s.channels == s0.channels && |s.workers| == |s0.workers| == |s.pipes| == |s0.pipes|
    && (forall p: nat :: Holds(s.parent, p) <==> p < |s0.workers| && p !in done)
    && (forall fd :: fd in s.parent ==> fd in s0.parent && s.parent[fd] == s0.parent[fd])
    && (forall i: nat :: i < |s0.workers| ==> s.workers[i] == if i in done then Finished(s0, i) else s0.workers[i])
    && (forall i: nat :: i < |s0.workers| ==> s.pipes[i] == if i in done then [] else s0.pipes[i])
  }

  /** Every pool that is up and running. */
  ghost predicate Running(s0: Pool, base: Table, cleanup: bool) {
    && Plain(base) && Shape(s0, base, cleanup)
    && forall i :: 0 <= i < |s0.workers| ==> s0.workers[i].alive
  }

  /** What the shutdown needs to know about a pool that is up and running: who can write into
      which pipe, and whether the workers read their pipes. */
  ghost predicate Ready(s0: Pool, cleanup: bool, stdin: bool) {
    && |s0.workers| == |s0.channels| == |s0.pipes|
    && (forall i :: 0 <= i < |s0.workers| ==> s0.workers[i].alive)
    && (forall p: nat :: Holds(s0.parent, p) <==> p < |s0.workers|)
    && (forall fd :: fd in s0.parent && s0.parent[fd].WriteEnd? ==>
          s0.parent[fd].pipe < |s0.workers| && s0.channels[s0.parent[fd].pipe] == fd)
    && (forall i, p: nat :: 0 <= i < |s0.workers| ==> (Holds(s0.workers[i].fds, p) <==> !cleanup && p < i))
    && (forall i :: 0 <= i < |s0.workers| ==> Stdin(s0, i) == if stdin then Some(i) else None)
  }

  /** Worker i reads pipe i, if it reads any. */
  lemma StdinIs(s0: Pool, base: Table, cleanup: bool, i: nat)
    requires Running(s0, base, cleanup) && i < |s0.workers|
    ensures Stdin(s0, i) == if 0 in base then Some(i) else None
  {
    if 0 !in base && !cleanup {
      assert 0 !in Ends(s0.channels[..i]);
    }
  }

  lemma RunningIsReady(s0: Pool, base: Table, cleanup: bool)
    requires Running(s0, base, cleanup)
    ensures Ready(s0, cleanup, 0 in base)
  {
    forall p: nat ensures Holds(s0.parent, p) <==> p < |s0.workers| {
      ParentHolds(base, s0.channels, p);
    }
    forall fd | fd in s0.parent && s0.parent[fd].WriteEnd?
      ensures s0.parent[fd].pipe < |s0.workers| && s0.channels[s0.parent[fd].pipe] == fd
    {
      EndsHold(s0.channels, fd, s0.parent[fd].pipe);
    }
    forall i, p: nat | 0 <= i < |s0.workers| ensures Holds(s0.workers[i].fds, p) <==> !cleanup && p < i {
      WorkerHolds(base, s0.channels, cleanup, i, p);
    }
    forall i | 0 <= i < |s0.workers| ensures Stdin(s0, i) == if 0 in base then Some(i) else None {
      StdinIs(s0, base, cleanup, i);
    }
  }

  lemma ReadyIsPartly(s0: Pool, cleanup: bool, stdin: bool)
    requires Ready(s0, cleanup, stdin)
    ensures Partly(s0, s0, {})
  {
  }

  /** Closing worker i's channel takes its write end, and no other, from the parent. */
  lemma CloseChannel(s: Pool, s0: Pool, cleanup: bool, stdin: bool, done: set<nat>, i: nat, p: nat)
    requires Ready(s0, cleanup, stdin) && Partly(s, s0, done) && i < |s0.workers| && i !in done
    ensures Holds(s.parent - {s.channels[i]}, p) <==> p < |s0.workers| && p !in done && p != i
  {
    var t := s.parent - {s.channels[i]};
    if fd :| fd in t && t[fd] == WriteEnd(p) {
      assert s.parent[fd] == WriteEnd(p);
      assert Holds(s.parent, p);
    }
    if p < |s0.workers| && p !in done && p != i {
      assert Holds(s.parent, p);
      var fd :| fd in s.parent && s.parent[fd] == WriteEnd(p);
      assert Holds(s.parent, i);
      var fi :| fi in s.parent && s.parent[fi] == WriteEnd(i);
      assert s0.channels[p] == fd && s0.channels[i] == fi;
      assert fd in t && t[fd] == WriteEnd(p);
    }
  }

  /** Closing a channel changes no worker's standard input. */
  lemma StdinStays(s: Pool, s0: Pool, cleanup: bool, stdin: bool, done: set<nat>, c: nat, i: nat)
    requires Ready(s0, cleanup, stdin) && Partly(s, s0, done) && c < |s0.workers| && i < |s0.workers| && i !in done
    ensures Stdin(Closed(s, c), i) == if stdin then Some(i) else None
  {
    assert s.workers[i] == s0.workers[i] && Stdin(s0, i) == if stdin then Some(i) else None;
  }

  /** The worker whose channel was just closed gets to the end of its pipe exactly when it reads
      its pipe and no running worker inherited the channel. */
  lemma ClosedSeesEofIff(s: Pool, s0: Pool, cleanup: bool, stdin: bool, done: set<nat>, i: nat)
    requires Ready(s0, cleanup, stdin) && Partly(s, s0, done) && i < |s0.workers| && i !in done
    ensures SeesEof(Closed(s, i), i) <==>
            stdin && (cleanup || forall j :: i < j < |s0.workers| ==> j in done)
  {
    StdinStays(s, s0, cleanup, stdin, done, i, i);
    CloseChannel(s, s0, cleanup, stdin, done, i, i);
    if !cleanup && exists j :: i < j < |s0.workers| && j !in done {
      var j: nat :| i < j < |s0.workers| && j !in done;
      assert s.workers[j].alive && Holds(s.workers[j].fds, i);
    }
  }

  /** All other running workers wait: the parent can still send to them. */
  lemma OthersWait(s: Pool, s0: Pool, cleanup: bool, stdin: bool, done: set<nat>, i: nat, k: nat)
    requires Ready(s0, cleanup, stdin) && Partly(s, s0, done) && i < |s0.workers| && i !in done && k != i
    ensures !SeesEof(Closed(s, i), k)
  {
    if k < |s0.workers| && k !in done {
      StdinStays(s, s0, cleanup, stdin, done, i, k);
      CloseChannel(s, s0, cleanup, stdin, done, i, k);
    }
  }

  lemma ExitPartly(s: Pool, s0: Pool, cleanup: bool, stdin: bool, done: set<nat>, i: nat)
    requires Ready(s0, cleanup, stdin) && Partly(s, s0, done) && i < |s0.workers| && i !in done
    requires Stdin(s, i) == Some(i)
    ensures Partly(Exit(Closed(s, i), i), s0, done + {i})
  {
    forall p: nat ensures Holds(Closed(s, i).parent, p) <==> p < |s0.workers| && p !in done + {i} {
      CloseChannel(s, s0, cleanup, stdin, done, i, p);
    }
  }

  /** One step of the shutdown, when nobody who still runs has inherited the channel. */
  lemma ShutOne(s: Pool, s0: Pool, cleanup: bool, done: set<nat>, i: nat, done': set<nat>)
    requires Ready(s0, cleanup, true) && Partly(s, s0, done) && i < |s0.workers| && i !in done
    requires done' == done + {i}
    requires cleanup || forall j :: i < j < |s0.workers| ==> j in done
    ensures var r := WaitPid(Closed(s, i), i); r.Some? && Partly(r.value, s0, done')
  {
    ClosedSeesEofIff(s, s0, cleanup, true, done, i);
    ExitPartly(s, s0, cleanup, true, done, i);
  }

  /** One step of the shutdown, when the worker does not read its pipe or another one has inherited
      the channel: no worker can exit any more. */
  lemma ShutBlocked(s: Pool, s0: Pool, cleanup: bool, stdin: bool, done: set<nat>, i: nat)
    requires Ready(s0, cleanup, stdin) && Partly(s, s0, done) && i < |s0.workers| && i !in done
    requires !(stdin && (cleanup || forall j :: i < j < |s0.workers| ==> j in done))
    ensures WaitPid(Closed(s, i), i).None?
    ensures forall k: nat :: !SeesEof(Closed(s, i), k)
  {
    ClosedSeesEofIff(s, s0, cleanup, stdin, done, i);
    forall k: nat | k != i ensures !SeesEof(Closed(s, i), k) {
      OthersWait(s, s0, cleanup, stdin, done, i, k);
    }
    assert FirstAtEof(Closed(s, i), 0) == |s.workers|;
  }

  lemma QuitHead(s: Pool, order: seq<nat>)
    requires |s.channels| == |s.workers| && (forall x :: x in order ==> x < |s.workers|) && order != []
    ensures order[0] < |s.workers| && forall x :: x in order[1..] ==> x < |s.workers|
    ensures var r := WaitPid(Closed(s, order[0]), order[0]);
            Quit(s, order) == if r.None? then None else Quit(r.value, order[1..])
  {
    assert order[0] in order;
    assert forall x :: x in order[1..] ==> x in order;
  }

  lemma DistinctTail(order: seq<nat>)
    requires order != [] && Distinct(order)
    ensures Distinct(order[1..]) && order[0] !in order[1..]
    ensures ToSet(order) == {order[0]} + ToSet(order[1..])
  {
    assert order == [order[0]] + order[1..];
  }

  lemma {:induction false} QuitAny(s: Pool, s0: Pool, done: set<nat>, order: seq<nat>)
    requires Ready(s0, true, true) && Partly(s, s0, done) && Distinct(order)
    requires forall x :: x in order ==> x < |s0.workers| && x !in done
    ensures var r := Quit(s, order); r.Some? && Partly(r.value, s0, done + ToSet(order))
    decreases |order|
  {
    if order == [] {
      assert done + ToSet(order) == done;
    } else {
      var i := order[0];
      QuitHead(s, order);
      DistinctTail(order);
      ShutOne(s, s0, true, done, i, done + {i});
      assert forall x :: x in order[1..] ==> x in order;
      QuitAny(WaitPid(Closed(s, i), i).value, s0, done + {i}, order[1..]);
      assert done + {i} + ToSet(order[1..]) == done + ToSet(order);
    }
  }

  /** With the cleanup, closing and waiting works in every order, so in the program's too, if the
      workers have a standard input to read: it never blocks, every worker exits, and each has run
      its pipe to the end. */
  lemma CleanShutdown(s0: Pool, base: Table, order: seq<nat>)
    requires Running(s0, base, true) && 0 in base && Order(order, |s0.workers|)
    ensures var r := Quit(s0, order);
            && r.Some? && |r.value.workers| == |s0.workers|
            && forall i :: 0 <= i < |s0.workers| ==> r.value.workers[i] == Finished(s0, i)
  {
    RunningIsReady(s0, base, true);
    ReadyIsPartly(s0, true, true);
    QuitAny(s0, s0, {}, order);
    forall i | 0 <= i < |s0.workers| ensures i in ToSet(order) {
      OrderCovers(order, |s0.workers|, i);
    }
  }

  /** Without a standard input to start with, the first wait never ends, in whatever order. */
  lemma NoStdinBlocks(s0: Pool, base: Table, cleanup: bool, order: seq<nat>)
    requires Running(s0, base, cleanup) && 0 !in base && Order(order, |s0.workers|) && order != []
    ensures Quit(s0, order).None?
  {
    RunningIsReady(s0, base, cleanup);
    ReadyIsPartly(s0, cleanup, false);
    QuitHead(s0, order);
    ShutBlocked(s0, s0, cleanup, false, {}, order[0]);
  }

  /** A list of n different numbers below n has all of them. */
  lemma OrderCovers(order: seq<nat>, n: nat, i: nat)
    requires Order(order, n) && i < n
    ensures i in order
  {
    DistinctSize(order);
    assert ToSet(order) <= Below(n);
    SubsetSize(ToSet(order), Below(n));
    assert i in ToSet(order);
  }

  lemma {:induction false} DistinctSize(order: seq<nat>)
    requires Distinct(order)
    ensures |ToSet(order)| == |order|
    decreases |order|
  {
    if order != [] {
      DistinctTail(order);
      DistinctSize(order[1..]);
    }
  }

  /** The workers from k on. */
  function From(k: nat, n: nat): set<nat> {
    Below(n) - Below(k)
  }

  lemma FromStep(k: nat, n: nat)
    requires 0 < k <= n
    ensures From(k - 1, n) == From(k, n) + {k - 1} && k - 1 !in From(k, n)
    ensures forall j :: k - 1 < j < n ==> j in From(k, n)
  {
    assert forall j: nat :: k - 1 < j < n ==> j in From(k, n);
  }

  /** Without the cleanup, with the workers from k on down and the others up, only one order of
      closing the rest gets through. */
  lemma {:induction false} QuitReverseOnly(s: Pool, s0: Pool, order: seq<nat>, k: nat)
    requires Ready(s0, false, true) && k <= |s0.workers| && Partly(s, s0, From(k, |s0.workers|))
    requires |order| == k && Distinct(order) && forall x :: x in order ==> x < k
    ensures var r := Quit(s, order);
            && (r.Some? <==> order == Reverse(k))
            && (r.Some? ==> Partly(r.value, s0, Below(|s0.workers|)))
    decreases k, 0
  {
    if k == 0 {
      assert From(k, |s0.workers|) == Below(|s0.workers|);
    } else {
      assert order == Reverse(k) <==> order[0] == k - 1 && order[1..] == Reverse(k - 1) by {
        ReverseSplit(order, k);
      }
      if order[0] != k - 1 {
        OtherFirst(s, s0, order, k);
      } else {
        FromStep(k, |s0.workers|);
        ShutOne(s, s0, false, From(k, |s0.workers|), k - 1, From(k - 1, |s0.workers|));
        TailBelow(order, k);
        QuitReverseRest(s, s0, order, WaitPid(Closed(s, k - 1), k - 1).value, k);
      }
    }
  }

  lemma QuitReverseRest(s: Pool, s0: Pool, order: seq<nat>, m: Pool, k: nat)
    requires Ready(s0, false, true) && 0 < k <= |s0.workers| && |s.channels| == |s.workers| == |s0.workers|
    requires WaitPid(Closed(s, k - 1), k - 1) == Some(m) && Partly(m, s0, From(k - 1, |s0.workers|))
    requires |order| == k && order[0] == k - 1 && forall x :: x in order ==> x < k
    requires Distinct(order[1..]) && forall x :: x in order[1..] ==> x < k - 1
    ensures var r := Quit(s, order);
            && (r.Some? <==> order[1..] == Reverse(k - 1))
            && (r.Some? ==> Partly(r.value, s0, Below(|s0.workers|)))
    decreases k - 1, 1
  {
    QuitStep(s, order, m);
    QuitReverseOnly(m, s0, order[1..], k - 1);
  }

  lemma QuitStep(s: Pool, order: seq<nat>, m: Pool)
    requires |s.channels| == |s.workers| && (forall x :: x in order ==> x < |s.workers|) && order != []
    requires order[0] < |s.workers| && WaitPid(Closed(s, order[0]), order[0]) == Some(m)
    ensures |m.channels| == |m.workers| == |s.workers| && forall x :: x in order[1..] ==> x < |m.workers|
    ensures Quit(s, order) == Quit(m, order[1..])
  {
    QuitHead(s, order);
  }

  /** Taking another worker than the last one first does not succeed. */
  lemma OtherFirst(s: Pool, s0: Pool, order: seq<nat>, k: nat)
    requires Ready(s0, false, true) && 0 < k <= |s0.workers| && Partly(s, s0, From(k, |s0.workers|))
    requires |order| == k && (forall x :: x in order ==> x < k) && order[0] != k - 1
    ensures Quit(s, order).None?
  {
    assert order[0] in order;
    WrongFirst(s, s0, k, order[0]);
    QuitHead(s, order);
  }

  lemma WrongFirst(s: Pool, s0: Pool, k: nat, i: nat)
    requires Ready(s0, false, true) && i < k - 1 < |s0.workers| && Partly(s, s0, From(k, |s0.workers|))
    ensures WaitPid(Closed(s, i), i).None?
  {
    assert i < k - 1 < |s0.workers| && k - 1 !in From(k, |s0.workers|);
    ShutBlocked(s, s0, false, true, From(k, |s0.workers|), i);
  }

  lemma TailBelow(order: seq<nat>, k: nat)
    requires order != [] && Distinct(order) && order[0] == k - 1 && forall x :: x in order ==> x < k
    ensures Distinct(order[1..]) && forall x :: x in order[1..] ==> x < k - 1
  {
    DistinctTail(order);
    assert forall x :: x in order[1..] ==> x in order;
  }

  lemma ReverseSplit(order: seq<nat>, k: nat)
    requires |order| == k > 0
    ensures order == Reverse(k) <==> order[0] == k - 1 && order[1..] == Reverse(k - 1)
  {
    assert Reverse(k)[1..] == Reverse(k - 1);
    assert order == [order[0]] + order[1..] && Reverse(k) == [k - 1] + Reverse(k)[1..];
  }

  /** Without the cleanup, the shutdown gets through in exactly one order, last worker first, and
      only if the workers have a standard input to read; in any other order it blocks for ever.
      The program's own order is that one only for at most one worker. */
  lemma UncleanShutdownIff(s0: Pool, base: Table, order: seq<nat>)
    requires Running(s0, base, false) && Order(order, |s0.workers|)
    ensures Quit(s0, order).Some? <==> order == Reverse(|s0.workers|) && (order == [] || 0 in base)
    ensures Forward(|s0.workers|) == Reverse(|s0.workers|) <==> |s0.workers| <= 1
  {
    RunningIsReady(s0, base, false);
    ReadyIsPartly(s0, false, 0 in base);
    var n := |s0.workers|;
    assert From(n, n) == {};
    if 0 in base {
      QuitReverseOnly(s0, s0, order, n);
    } else if order != [] {
      NoStdinBlocks(s0, base, false, order);
    }
    if n > 1 {
      assert Forward(n)[0] == 0 && Reverse(n)[0] == n - 1;
    }
  }

  // ----- the whole program -----

  lemma {:induction false} RunsAll(cs: seq<int>)
    requires forall i :: 0 <= i < |cs| ==> 0 <= cs[i] < TASKS
    ensures Runs(cs) == cs
  {
    if cs != [] {
      RunsAll(cs[..|cs| - 1]);
    }
  }

  lemma {:induction false} ShareInRange(cs: seq<int>, n: nat, i: nat)
    requires n > 0 && forall k :: 0 <= k < |cs| ==> 0 <= cs[k] < TASKS
    ensures forall j :: 0 <= j < |Share(cs, n, i)| ==> 0 <= Share(cs, n, i)[j] < TASKS
    decreases |cs|
  {
    if cs != [] {
      ShareInRange(cs[..|cs| - 1], n, i);
    }
  }

  lemma ShareRuns(cs: seq<int>, n: nat, i: nat)
    requires n > 0 && forall k :: 0 <= k < |cs| ==> 0 <= cs[k] < TASKS
    ensures [] + Runs([] + Share(cs, n, i)) == Share(cs, n, i)
  {
    ShareInRange(cs, n, i);
    RunsAll(Share(cs, n, i));
    assert [] + Share(cs, n, i) == Share(cs, n, i);
  }

  lemma DealRunning(s: Pool, base: Table, cleanup: bool, cs: seq<int>)
    requires Running(s, base, cleanup) && |s.workers| > 0
    ensures Wired(s) && Running(Deal(s, cs), base, cleanup)
  {
    ShapeIsWired(s, base, cleanup);
  }

  /** A pool that has just been started, its commands dealt out, then shut down. */
  lemma DealAndShutDown(s0: Pool, base: Table, cs: seq<int>, order: seq<nat>)
    requires Running(s0, base, true) && 0 in base && |s0.workers| > 0 && Order(order, |s0.workers|)
    requires Started(s0)
    requires forall k :: 0 <= k < |cs| ==> 0 <= cs[k] < TASKS
    ensures Wired(s0)
    ensures Completed(Quit(Deal(s0, cs), order), cs, |s0.workers|)
  {
    var n := |s0.workers|;
    DealRunning(s0, base, true, cs);
    CleanShutdown(Deal(s0, cs), base, order);
    forall i | 0 <= i < n ensures [] + Runs([] + Share(cs, n, i)) == Share(cs, n, i) {
      ShareRuns(cs, n, i);
    }
  }

  /** The program got through: all n workers have exited, and worker i has run commands i, i + n,
      i + 2n, ... in order. */
  predicate Completed(r: Option<Pool>, cs: seq<int>, n: nat)
    requires n > 0
  {
    && r.Some? && |r.value.workers| == n
    && forall i :: 0 <= i < n ==> !r.value.workers[i].alive && r.value.workers[i].executed == Share(cs, n, i)
  }

  /** Writing the commands to pipes of which each has a reader. */
  predicate CanDeal(s: Pool, cs: seq<int>)
    requires |s.workers| > 0
  {
    forall k :: 0 <= k < |cs| ==> HasReader(s, k % |s.workers|)
  }

  /** What the parent's `cin` gets of what was entered: it reads descriptor 0 as well, and without
      it there is nothing to read. */
  function Entered(s: Pool, input: seq<int>): seq<int> {
    if 0 in s.parent && s.parent[0] == Terminal then input else []
  }

  /** The whole program with n workers: None when a write kills it, or a wait never ends. */
  function Program(base: Table, n: nat, cs: seq<int>, order: seq<nat>): Option<Pool>
    requires Plain(base) && n > 0 && Order(order, n)
  {
    var s := InitPool(base, n, true);
    ShapeIsWired(s, base, true);
    var sent := Entered(s, cs);
    if CanDeal(s, sent) then Quit(Deal(s, sent), order) else None
  }

  /** The menu can be read exactly when the program was started with a standard input: starting the
      workers neither takes it away from the parent nor leaves a pipe end in its place. */
  lemma EnteredIs(base: Table, n: nat, input: seq<int>)
    requires Plain(base)
    ensures Entered(InitPool(base, n, true), input) == if 0 in base then input else []
  {
    assert Shape(InitPool(base, n, true), base, true);
  }

  /** Given commands can be written exactly when there are none, or the workers read their pipes. */
  lemma CanDealIff(base: Table, n: nat, cs: seq<int>)
    requires Plain(base) && n > 0
    ensures CanDeal(InitPool(base, n, true), cs) <==> 0 in base || cs == []
  {
    var s := InitPool(base, n, true);
    if 0 in base {
      forall p: nat | p < n ensures HasReader(s, p) {
        WorkerReadsOwnPipe(base, n, p, 0);
        assert s.workers[p].alive && Reads(s.workers[p].fds, p);
      }
    } else {
      NobodyReads(base, n, 0);
      assert 0 % n == 0;
    }
  }

  /** From start to end, for any number of workers, any commands and any order of shutting down:
      if the program was started with a standard input, each worker reads its own pipe, nothing
      blocks, and worker i has run commands i, i + n, i + 2n, ... in order, all before its pipe
      ended. */
  lemma EveryCommandRunsOnce(base: Table, n: nat, cs: seq<int>, order: seq<nat>)
    requires Plain(base) && 0 in base && n > 0 && Order(order, n)
    requires forall k :: 0 <= k < |cs| ==> 0 <= cs[k] < TASKS
    ensures Completed(Program(base, n, cs, order), cs, n)
  {
    EnteredIs(base, n, cs);
    CanDealIff(base, n, cs);
    DealAndShutDown(InitPool(base, n, true), base, cs, order);
  }

  /** The program gets through exactly when it was started with a standard input. Otherwise its own
      menu reads nothing either, so no command is sent and no write can kill it; but no worker
      reads its pipe, and the program waits for ever. */
  lemma ProgramEndsIff(base: Table, n: nat, cs: seq<int>, order: seq<nat>)
    requires Plain(base) && n > 0 && Order(order, n)
    requires forall k :: 0 <= k < |cs| ==> 0 <= cs[k] < TASKS
    ensures Program(base, n, cs, order).Some? <==> 0 in base
    ensures var s := InitPool(base, n, true);
            && CanDeal(s, Entered(s, cs))
            && (0 !in base ==> Entered(s, cs) == [])
  {
    var s := InitPool(base, n, true);
    EnteredIs(base, n, cs);
    CanDealIff(base, n, Entered(s, cs));
    if 0 in base {
      EveryCommandRunsOnce(base, n, cs, order);
    } else {
      DealRunning(s, base, true, []);
      NoStdinBlocks(Deal(s, []), base, true, order);
    }
  }

  lemma NobodyReads(base: Table, n: nat, p: nat)
    requires Plain(base) && 0 !in base
    ensures !HasReader(InitPool(base, n, true), p)
  {
    ParentIsOnlyWriter(base, n);
    forall j: nat | j < n ensures !Reads(InitPool(base, n, true).workers[j].fds, p) {
      WorkerCannotRead(base, n, j, p);
    }
  }

  lemma WorkerCannotRead(base: Table, n: nat, j: nat, p: nat)
    requires Plain(base) && 0 !in base && j < n
    ensures !Reads(InitPool(base, n, true).workers[j].fds, p)
  {
    var t := InitPool(base, n, true).workers[j].fds;
    forall fd | fd in t ensures t[fd] != ReadEnd(p) {
      WorkerReadsOwnPipe(base, n, j, fd);
    }
  }
}
