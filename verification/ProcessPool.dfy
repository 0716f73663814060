/** The process pool program: descriptor tables, channels and workers are updated in place, one
    system call after the other. Each part is proved to compute the pool of `PipePool`. */
module ProcessPool {
  import opened Counting
  import opened Descriptors
  import opened Modular
  import opened PipePool
  import opened Wrappers

  /** The menu loop ends at the first choice that is not 1 to 4. */
  lemma {:induction false} CommandsSent(choices: seq<int>, sent: seq<int>)
    requires |sent| <= |choices|
    requires forall k :: 0 <= k < |sent| ==> 0 < choices[k] <= 4 && sent[k] == choices[k] - 1
    requires |sent| < |choices| ==> !(0 < choices[|sent|] <= 4)
    ensures sent == Commands(choices)
    decreases |sent|
  {
    if sent != [] {
      CommandsSent(choices[1..], sent[1..]);
      assert sent == [sent[0]] + sent[1..];
    }
  }

  /** The next command goes to the next worker's write end. */
  lemma DealMore(s: Pool, cs: seq<int>, c: int)
    requires Wired(s) && |s.workers| > 0
    ensures Deal(s, cs + [c]) == Write(Deal(s, cs), s.channels[|cs| % |s.workers|], c)
  {
    assert (cs + [c])[..|cs|] == cs;
  }

  /** These are the commands for the first choices, all of them valid. */
  predicate Valid(choices: seq<int>, sent: seq<int>) {
    && |sent| <= |choices|
    && forall k :: 0 <= k < |sent| ==> 0 < choices[k] <= 4 && sent[k] == choices[k] - 1
  }

  lemma ValidMore(choices: seq<int>, sent: seq<int>, c: int)
    requires Valid(choices, sent) && |sent| < |choices| && 0 < choices[|sent|] <= 4 && c == choices[|sent|] - 1
    ensures Valid(choices, sent + [c])
  {
  }

  lemma DealKeepsReaders(s: Pool, cs: seq<int>, p: nat)
    requires Wired(s) && |s.workers| > 0
    ensures HasReader(Deal(s, cs), p) == HasReader(s, p)
  {
  }

  lemma CanDealMore(s: Pool, sent: seq<int>, c: int)
    requires |s.workers| > 0 && CanDeal(s, sent) && HasReader(s, |sent| % |s.workers|)
    ensures CanDeal(s, sent + [c])
  {
  }

  /** Dealing gets stuck at the first pipe without a reader. */
  lemma Stuck(s: Pool, choices: seq<int>, sent: seq<int>)
    requires |s.workers| > 0 && Valid(choices, sent) && |sent| < |choices| && 0 < choices[|sent|] <= 4
    requires !HasReader(s, |sent| % |s.workers|)
    ensures !CanDeal(s, Commands(choices))
  {
    CommandsAtLeast(choices, |sent| + 1);
  }

  lemma {:induction false} CommandsAtLeast(choices: seq<int>, n: nat)
    requires n <= |choices| && forall k :: 0 <= k < n ==> 0 < choices[k] <= 4
    ensures |Commands(choices)| >= n
    decreases n
  {
    if n > 0 {
      CommandsAtLeast(choices[1..], n - 1);
    }
  }

  /** These commands have been dealt from s on, and it is worker `which`'s turn. */
  ghost predicate Dealt(v: Pool, which: nat, s: Pool, cs: seq<int>)
    requires Wired(s) && |s.workers| > 0
  {
    CanDeal(s, cs) && v == Deal(s, cs) && which == |cs| % |s.workers|
  }

  lemma NextWhich(which: nat, i: nat, n: nat)
    requires n > 0 && which == i % n
    ensures (which + 1) % n == (i + 1) % n
  {
    ModSuccessor(i, n);
  }

  class ProcessPool {
    var parent: Table
    var channels: seq<nat>
    var pipes: seq<seq<int>>
    var workers: seq<Worker>

    constructor (base: Table)
      ensures View() == Pool(base, [], [], [])
    {
      parent, channels, pipes, workers := base, [], [], [];
    }

    function View(): Pool
      reads this
    {
      Pool(parent, channels, pipes, workers)
    }

    /** Starts n workers. */
    method InitProcessPool(n: nat)
      requires Plain(parent) && View() == Pool(parent, [], [], [])
      modifies this
      ensures View() == InitPool(old(parent), n, true)
    {
      ghost var base := parent;
      var oldfds: seq<nat> := [];
      for i := 0 to n
        invariant View() == InitPool(base, i, true) && oldfds == channels
      {
        SpawnShape(View(), base, true);
        var w := StartWorker(oldfds);
        oldfds := oldfds + [w];
      }
    }

    /** `pipe`, `fork`, what the child does first, and the parent's part. */
    method StartWorker(oldfds: seq<nat>) returns (w: nat)
      requires ToSet(channels) <= parent.Keys && oldfds == channels
      modifies this
      ensures View() == Spawn(old(View()), true) && channels == old(channels) + [w]
    {
      ghost var s := View();
      var r := LowestFree(parent.Keys, 0);
      assert r !in ToSet(channels);
      parent := parent[r := ReadEnd(|pipes|)];
      assert parent.Keys == s.parent.Keys + {r};
      w := LowestFree(parent.Keys, 0);
      parent := parent[w := WriteEnd(|pipes|)];
      pipes := pipes + [[]];
      var child := ChildStart(parent, oldfds, r, w);
      workers := workers + [Worker(child, true, [])];
      parent := parent - {r};
      channels := channels + [w];
    }

    /** The child between `fork` and `slaver`. */
    static method ChildStart(inherited: Table, oldfds: seq<nat>, r: nat, w: nat) returns (fds: Table)
      requires r in inherited && r != w && r !in oldfds
      ensures fds == ChildTable(inherited, oldfds, r, w, true)
    {
      fds := inherited;
      for j := 0 to |oldfds|
        invariant fds == inherited - ToSet(oldfds[..j])
      {
        assert ToSet(oldfds[..j + 1]) == ToSet(oldfds[..j]) + {oldfds[j]};
        fds := fds - {oldfds[j]};
      }
      assert oldfds[..|oldfds|] == oldfds;
      fds := fds - {w};
      fds := fds[0 := fds[r]];
      fds := fds - {r};
    }

    /** The menu loop: command after command, round robin from worker 0, as long as its input
        lasts. A write to a pipe that nobody can read kills the program. */
    method CtrlSlaver(choices: seq<int>) returns (killed: bool, ghost sent: seq<int>)
      requires Wired(View()) && |workers| > 0
      modifies this
      ensures killed <==> !CanDeal(old(View()), Commands(Entered(old(View()), choices)))
      ensures !killed ==> View() == Deal(old(View()), sent) && sent == Commands(Entered(old(View()), choices))
    {
      var which, i := 0, 0;
      ghost var s := View();
      ghost var entered := Entered(s, choices);
      sent, killed := [], false;
      while true
        invariant 0 <= i == |sent| <= |entered|
        invariant Valid(entered, sent)
        invariant Dealt(View(), which, s, sent)
        decreases |entered| - i
      {
        var select := ReadChoice(choices, i);
        if select > 4 || select <= 0 {
          break;
        }
        var cmdcode := select - 1;
        assert i < |entered| && entered[i] == select && 0 < select <= 4;
        killed, which := SendNext(which, cmdcode, s, sent);
        if killed {
          Stuck(s, entered, sent);
          return;
        }
        ValidMore(entered, sent, cmdcode);
        sent := sent + [cmdcode];
        i := i + 1;
      }
      CommandsSent(entered, sent);
    }

    /** `cin` into a zero: the i-th choice, or still 0 at the end of the input, and when descriptor
        0 is not there to read. */
    method ReadChoice(choices: seq<int>, i: nat) returns (select: int)
      ensures select == if i < |Entered(View(), choices)| then Entered(View(), choices)[i] else 0
    {
      select := 0;
      if 0 in parent && parent[0] == Terminal && i < |choices| {
        select := choices[i];
      }
    }

    /** The command goes to the worker whose turn it is, if anybody can read the pipe. */
    method SendNext(which: nat, cmdcode: int, ghost s: Pool, ghost cs: seq<int>) returns (killed: bool, next: nat)
      requires Wired(s) && |s.workers| > 0 && Dealt(View(), which, s, cs)
      modifies this
      ensures killed <==> !HasReader(s, |cs| % |s.workers|)
      ensures !killed ==> Dealt(View(), next, s, cs + [cmdcode])
    {
      DealKeepsReaders(s, cs, which);
      if !HasReader(View(), which) {
        return true, which;
      }
      CanDealMore(s, cs, cmdcode);
      DealMore(s, cs, cmdcode);
      Send(channels[which], cmdcode);
      NextWhich(which, |cs|, |s.workers|);
      next := which + 1;
      next := next % |channels|;
      killed := false;
    }

    /** `write` of one command. */
    method Send(fd: nat, cmdcode: int)
      requires fd in parent && parent[fd].WriteEnd? && parent[fd].pipe < |pipes|
      modifies this
      ensures View() == Write(old(View()), fd, cmdcode)
    {
      var p := parent[fd].pipe;
      pipes := pipes[p := pipes[p] + [cmdcode]];
    }

    /** Worker i's loop, for a worker whose descriptor 0 leads to a pipe, from now until it reads
        the end of that pipe. */
    method Slaver(i: nat)
      requires i < |workers| && Stdin(View(), i).Some?
      modifies this
      ensures View() == Exit(old(View()), i)
    {
      var q := Stdin(View(), i).value;
      while pipes[q] != []
        invariant i < |workers| && Stdin(View(), i) == Some(q)
        invariant Exit(View(), i) == Exit(old(View()), i)
        decreases |pipes[q]|
      {
        ghost var s := View();
        ExitAfterTake(s, i);
        var cmdcode := pipes[q][0];
        pipes := pipes[q := pipes[q][1..]];
        if cmdcode >= 0 && cmdcode < TASKS {
          workers := workers[i := workers[i].(executed := workers[i].executed + [cmdcode])];
        }
        RunsOne(cmdcode);
        assert s.workers[i].executed + [] == s.workers[i].executed && workers[i := workers[i]] == workers;
        assert View() == Take(s, i);
      }
      assert pipes[q := []] == pipes;
      assert workers[i].executed + [] == workers[i].executed;
      workers := workers[i := workers[i].(alive := false)];
    }

    /** Waits for worker i while the others go on; false means that it would wait for ever. */
    method Wait(i: nat) returns (ok: bool)
      requires i < |workers|
      modifies this
      ensures ok <==> WaitPid(old(View()), i).Some?
      ensures ok ==> View() == WaitPid(old(View()), i).value
    {
      while workers[i].alive
        invariant i < |workers|
        invariant WaitPid(View(), i) == WaitPid(old(View()), i)
        decreases Count(workers, Alive)
      {
        ghost var s := View();
        var j := i;
        if !SeesEof(View(), i) {
          j := FirstAtEof(View(), 0);
          if j == |workers| {
            return false;
          }
        }
        CountUpdate(workers, j, Exit(s, j).workers[j], Alive);
        Slaver(j);
      }
      return true;
    }

    /** Closes the channels and waits for the workers, first to last. */
    method QuitProcess() returns (ok: bool)
      requires |channels| == |workers|
      modifies this
      ensures var r := Quit(old(View()), Forward(|old(workers)|));
              && (ok <==> r.Some?)
              && (ok ==> View() == r.value)
    {
      ghost var order := Forward(|workers|);
      ghost var s := View();
      for i := 0 to |channels|
        invariant |channels| == |workers| == |order|
        invariant forall x :: x in order[i..] ==> x < |workers|
        invariant Quit(View(), order[i..]) == Quit(s, order)
      {
        ghost var before := View();
        assert order[i..][0] == i && order[i..][1..] == order[i + 1..];
        QuitHead(before, order[i..]);
        parent := parent - {channels[i]};
        var here := Wait(i);
        if !here {
          return false;
        }
      }
      return true;
    }

    /** The whole program. It gets through exactly when it was started with a standard input; then
        worker i has run commands i, i + n, i + 2n, ... */
    method RunAll(n: nat, choices: seq<int>) returns (ok: bool)
      requires n > 0 && Plain(parent) && View() == Pool(parent, [], [], [])
      modifies this
      ensures ok <==> 0 in old(parent)
      ensures ok ==> Completed(Some(View()), Commands(choices), n)
    {
      ghost var base := parent;
      InitProcessPool(n);
      PoolIsWired(base, n);
      CommandsOfEntered(View(), choices);
      FirstToLast(base, n, Commands(choices));
      ghost var program := Program(base, n, Commands(choices), Forward(n));
      var killed; ghost var sent;
      killed, sent := CtrlSlaver(choices);
      if killed {
        return false;
      }
      ok := QuitProcess();
    }
  }

  lemma CommandsOfEntered(s: Pool, choices: seq<int>)
    ensures Commands(Entered(s, choices)) == Entered(s, Commands(choices))
  {
  }

  lemma PoolIsWired(base: Table, n: nat)
    requires Plain(base)
    ensures Wired(InitPool(base, n, true))
  {
    ShapeIsWired(InitPool(base, n, true), base, true);
  }

  lemma ForwardIsOrder(n: nat)
    ensures Order(Forward(n), n)
  {
  }

  /** The program's own order of shutting down. */
  lemma FirstToLast(base: Table, n: nat, cs: seq<int>)
    requires Plain(base) && n > 0 && forall k :: 0 <= k < |cs| ==> 0 <= cs[k] < TASKS
    ensures Order(Forward(n), n)
    ensures var r := Program(base, n, cs, Forward(n));
            && (r.Some? <==> 0 in base)
            && (r.Some? ==> Completed(r, cs, n))
  {
    ForwardIsOrder(n);
    ProgramEndsIff(base, n, cs, Forward(n));
    if 0 in base {
      EveryCommandRunsOnce(base, n, cs, Forward(n));
    }
  }
}
