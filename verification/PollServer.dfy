/** The poll server object: its table is scanned and changed in place. Every method is proved to
    compute the state of `PollTable`. */
module PollServer {
  import opened Descriptors
  import opened PollTable
  import opened Wrappers

  class PollServer {
    const rds: array<Slot>
    var listensock: int
    var others: set<int>
    var open: set<int>
    ghost var bad: bool
    ghost var heard: seq<int>
    /** waits in `accept` or `read` for something that does not come */
    var blocked: bool

    ghost function View(): State
      reads this, rds
    {
      State(listensock, others, rds[..], open, bad, heard, blocked)
    }

    constructor (n: nat, others: set<int>)
      ensures fresh(rds) && rds.Length == n && this.others == others && open == {} && !bad && heard == [] && !blocked
      ensures forall i :: 0 <= i < n ==> rds[i] == Slot(DEFAULT_FD, EVENT_NONE, EVENT_NONE)
    {
      rds := new Slot[n](_ => Slot(DEFAULT_FD, EVENT_NONE, EVENT_NONE));
      listensock, this.others, open, bad, heard, blocked := DEFAULT_FD, others, {}, false, [], false;
    }

    /** `close` of a socket. */
    method CloseSocket(fd: int)
      modifies `open, `bad
      ensures View() == Close(old(View()), fd)
    {
      bad := bad || fd !in open;
      open := open - {fd};
    }

    method Accepter(incoming: Incoming)
      requires rds.Length > 0
      modifies `open, `bad, `blocked, rds
      ensures View() == Accept(old(View()), incoming)
    {
      match incoming {
        case Nobody =>
          blocked := true;
          return;
        case Failure => return;
        case Connection =>
      }
      var sock := LowestFree(others + open, 0);
      open := open + {sock};
      var pos := 1;
      while pos < rds.Length
        invariant 1 <= pos <= rds.Length
        invariant FreeSlot(rds[..], pos) == FreeSlot(rds[..], 1)
      {
        if rds[pos].fd != DEFAULT_FD {
          pos := pos + 1;
          continue;
        } else {
          break;
        }
      }
      if pos == rds.Length {
        CloseSocket(sock);
      } else {
        rds[pos] := Slot(sock, POLLIN, EVENT_NONE);
      }
    }

    method Recver(fd: int, pos: nat, n: Option<int>)
      requires pos < rds.Length && fd == rds[pos].fd
      modifies `open, `bad, `heard, `blocked, rds
      ensures View() == Recv(old(View()), pos, n)
    {
      heard := heard + [fd];
      if n.None? {
        blocked := true;
      } else if n.value > 0 {
      } else if n.value == 0 {
        CloseSocket(fd);
        rds[pos] := rds[pos].(fd := DEFAULT_FD);
      } else {
        CloseSocket(fd);
        rds[pos] := rds[pos].(fd := DEFAULT_FD);
      }
    }

    method Dispatcher(incoming: Incoming, results: seq<Option<int>>)
      requires rds.Length > 0 && !blocked
      modifies `open, `bad, `heard, `blocked, rds
      ensures View() == Dispatch(old(View()), 0, incoming, results)
    {
      for i := 0 to rds.Length
        invariant !blocked
        invariant Dispatch(View(), i, incoming, results) == Dispatch(old(View()), 0, incoming, results)
      {
        ghost var s := View();
        var fd := rds[i].fd;
        if fd == DEFAULT_FD {
          continue;
        }
        if HasPollin(rds[i].events) {
          if fd == listensock {
            Accepter(incoming);
          } else {
            Recver(fd, i, Result(results, i));
          }
        }
        assert View() == Visit(s, i, incoming, results);
        if blocked {
          return;
        }
      }
    }

    /** `poll` fills in `revents`. */
    method Poll(report: seq<int>)
      modifies rds
      ensures View() == Store(old(View()), report)
      ensures forall i :: 0 <= i < rds.Length ==>
                rds[i] == old(rds[i]).(revents := if old(rds[i]).fd != -1 && i < |report| then report[i] else 0)
    {
      for i := 0 to rds.Length
        invariant forall k :: i <= k < rds.Length ==> rds[k] == old(rds[k])
        invariant forall k :: 0 <= k < i ==> rds[k] == Store(old(View()), report).rds[k]
      {
        rds[i] := rds[i].(revents := if rds[i].fd == DEFAULT_FD then EVENT_NONE else Reported(report, i));
      }
      assert rds[..] == Store(old(View()), report).rds;
    }

    /** `Init` and `Start`: the socket, then one `poll` after the other. */
    method Start(events: seq<Event>)
      requires rds.Length > 0 && open == {} && !bad && heard == [] && !blocked
      requires forall i :: 0 <= i < rds.Length ==> rds[i] == Slot(DEFAULT_FD, EVENT_NONE, EVENT_NONE)
      modifies this, rds
      ensures View() == Run(Begin(rds.Length, LowestFree(old(others), 0), old(others)), events)
      ensures var only := Run(Begin(rds.Length, LowestFree(old(others), 0), old(others)), Readies(events));
              heard == only.heard && open == only.open && blocked == only.blocked
      ensures listensock in open && rds[0].fd == listensock
      ensures forall fd: int :: fd != DEFAULT_FD ==> (Used(rds[..], fd) <==> fd in open)
    {
      listensock := LowestFree(others, 0);
      open := open + {listensock};
      rds[0] := Slot(listensock, POLLIN, rds[0].revents);
      ghost var s := View();
      assert s.rds == Begin(rds.Length, listensock, others).rds && s.open == {listensock};
      for i := 0 to |events|
        invariant Run(View(), events[i..]) == Run(s, events)
      {
        assert events[i..][0] == events[i] && events[i..][1..] == events[i + 1..];
        if !blocked {
          match events[i] {
            case TimeOut => Poll([]);
            case PollError =>
            case Ready(report, incoming, results) =>
              Poll(report);
              Dispatcher(incoming, results);
          }
        }
      }
      assert events[|events|..] == [];
      QuietEventsIgnored(s, events);
      RunKeeps(s, events);
      TableIsOpenSockets(rds.Length, s.listen, s.others, events);
    }
  }
}
