# Verified models of the Linux exercises

The repository is a set of small Linux programs. This project models the ones that hold a real
protocol or algorithm and proves what they are for. System calls become parameters (what `read`
or `accept` returned, which sleeper a signal picked) or operations on values (descriptor tables).

| part | specification | program form |
|---|---|---|
| bounded ring for many producers and consumers | `RingProtocol` | `RingQueue` |
| blocking queue with water marks | `BlockProtocol`, `BlockLedger`, `BlockDeadlock`, `BlockProgress` | `BlockQueue` |
| thread pool | `PoolProtocol`, `PoolLedger` | `ThreadPool` |
| Gomoku | `GomokuRules`, `GomokuGame` | `Gobang` |
| length-prefixed frames, requests, calculator server | `Text`, `Framing`, `Calculator`, `CalcServer` | classes in the same modules |
| process pool over pipes | `PipePool` | `ProcessPool` |
| shell command line | `CommandLine` | `Shell` |
| HTTP request splitter | `HttpRequest` | class in the same module |
| poll server's descriptor table | `PollTable` | `PollServer` |

`Wrappers`, `Counting`, `Ledger`, `Modular` and `Descriptors` are small shared libraries.

How the concurrent programs are modelled: every thread has a program counter, a *turn* executes
one statement (one semaphore operation, one lock, one store, one `++`, one `%=`, one signal) of
one thread, and a run is any sequence of turns. A turn of a thread that would block changes
nothing. Capacities and numbers of threads are arbitrary. The classes keep the shared memory in
fields and update it in place; each of their methods is proved to take exactly the step of the
specification, and the theorems are proved about that specification for all runs.

Results that deserve attention because the code and its comments, or the code and its purpose,
do not agree:

- `BlockQueue::pop` tests for an empty queue once, although the comment at `push` says that the
  test has to be a loop. As written it is safe exactly with at most one consumer (or when nothing
  is ever pushed) and no spurious wakeups; with the loop it is always safe.
- The blocking queue can put all its threads to sleep for ever exactly when its capacity is below
  3, because the low-water mark is then 0; this holds for the code as written and with the loop,
  for any numbers of threads. With the single test all this holds up to the first take from an
  empty queue, after which C++ promises nothing. So, without spurious wakeups, the code as written
  neither sleeps for ever nor takes from an empty queue exactly with a capacity of at least 3 and
  one consumer; with the three consumers that the program starts, the capacity of 5 rules out the
  first but not the second.
- In the calculator `%` has no `break`: the remainder is computed and the code is `OTHER_OPER`;
  `MODE_ZERO` is never reported.
- `Decode` turns a parsed length into an unsigned one. It erases something from the buffer
  exactly when that length is not minus the size of the header line and two. Any other negative
  length waits for ever, or takes the whole rest of the buffer as content and erases less than that.
- A content longer than the largest int can be encoded but not decoded: `stoi` throws.
- A refused request ends the server's inner loop although complete frames may wait behind it. Still
  nothing is skipped or answered twice: a later read goes on where the last one stopped.
- The ordered shutdown of the process pool works in every order because each child closes the
  write ends it inherited. Without these closes it would work in one order only, last to first.
- For a blank line `splitstring` returns 1, so that the test for 0 in the shell's main loop never
  succeeds, and `argv[0]` is null.
- After splitting an HTTP request, `text` starts with the empty line's CRLF.
- The process pool gets to its end exactly when the program was started with an open standard
  input. Otherwise its own menu reads nothing, so no command is sent; and each pipe's read end gets
  descriptor 0 and the child closes it, so no worker can read, and the first wait never ends.
- The poll server's dispatcher looks at `events`, not `revents`: what `poll` reported makes no
  difference in any run. A sweep reads only reported sockets exactly when all connections in the
  table after the accept, as far as it gets, were reported, which a new one never is. It calls
  `accept` in every sweep and reads every connection, and both wait: a sweep comes to its end
  exactly when somebody wants to connect (or `accept` fails) and every connection has something to
  read.

## Model

| member | source | states |
|---|---|---|
| RingQueue.RingQueue.constructor | pthread/RingQueue/RingQueue.hpp:25-30 | a new ring is empty, its space semaphore holds the capacity, and the invariant holds |
| RingQueue.RingQueue.PushTurn | pthread/RingQueue/RingQueue.hpp:31-41 | one statement of `Push` by one producer, on the vector, the index, the semaphores and the mutex in place, is the specified step and keeps the invariant; past the semaphore the producer carries the argument of its call; seen as a bounded queue the statement appends the item it carries, when there is room, or changes nothing |
| RingQueue.RingQueue.PopTurn | pthread/RingQueue/RingQueue.hpp:42-52 | one statement of `Pop` by one consumer is the specified step and keeps the invariant; seen as a bounded queue it takes the oldest item or changes nothing; the value is handed over with the last statement |
| RingQueue.RingQueue.Run | pthread/RingQueue/RingQueue.hpp:31-52 | executing any schedule keeps the invariant, gives the specified state, and accepts from each producer exactly the arguments of its calls |
| RingProtocol.PushStepInv | pthread/RingQueue/RingQueue.hpp:31-41 | every statement of `Push` keeps the whole invariant: semaphore accounts, mutual exclusion, indices, slot contents, ledgers |
| RingProtocol.PopStepInv | pthread/RingQueue/RingQueue.hpp:42-52 | every statement of `Pop` keeps the whole invariant |
| RingProtocol.ReachableInv | pthread/RingQueue/RingQueue.hpp:25-52 | so the invariant holds in every state of every run |
| RingProtocol.FifoPrefix | pthread/RingQueue/RingQueue.hpp:31-52 | in every reachable state the items read are the first items written, in order; the others are in the ring at consecutive slots modulo the capacity, never more than the capacity |
| RingProtocol.ExactlyOnce | pthread/RingQueue/RingQueue.hpp:31-52 | in every run the arguments of each producer's calls, read off the schedule, are what it has stored, in call order, and the item it carries; what each consumer has fetched is what its calls returned, in order, and the item it holds |
| RingProtocol.SemaphoreConservation | pthread/RingQueue/RingQueue.hpp:25-52 | the two semaphore values and the threads between their P and their V add up to the capacity |
| RingProtocol.SlotsDisjoint | pthread/RingQueue/RingQueue.hpp:31-52 | a producer about to write and a consumer about to read use different valid slots although they hold different mutexes; each mutex admits one thread |
| RingProtocol.AboutToStore | pthread/RingQueue/RingQueue.hpp:34-34 | a producer about to write finds room, at the slot after the last item |
| RingProtocol.AboutToFetch | pthread/RingQueue/RingQueue.hpp:45-45 | a consumer about to read finds the oldest item under its index |
| RingProtocol.PushRefinesBoundedQueue | pthread/RingQueue/RingQueue.hpp:31-41 | seen as a bounded queue, one statement of `Push` appends the item when there is room, and all others change nothing |
| RingProtocol.PopRefinesBoundedQueue | pthread/RingQueue/RingQueue.hpp:42-52 | seen as a bounded queue, one statement of `Pop` takes the oldest item, and all others change nothing |
| RingProtocol.HolderNeverBlocks | pthread/RingQueue/RingQueue.hpp:31-52 | a thread that holds a mutex, or is past it, can always take its next step |
| RingProtocol.BlocksIff | pthread/RingQueue/RingQueue.hpp:31-52 | a turn has no effect if and only if its thread is about to wait for a semaphore that is zero or a mutex that is taken |
| RingProtocol.NoDeadlock | pthread/RingQueue/RingQueue.hpp:31-52 | with a producer and a consumer, every reachable state has a thread that can move |
| RingProtocol.OperationsComplete | pthread/RingQueue/RingQueue.hpp:31-52 | from every reachable state the operations under way can all be completed, in as many statements as they have left, and then the semaphores share the capacity and every accepted item is stored |
| RingProtocol.SettlingIsBounded | pthread/RingQueue/RingQueue.hpp:31-52 | in every schedule of effective statements of operations under way each statement uses up one that they have left, so none is longer |
| RingProtocol.EveryScheduleCompletes | pthread/RingQueue/RingQueue.hpp:31-52 | every such schedule that cannot be extended has completed all of them, with the semaphores sharing the capacity and every accepted item stored |
| BlockQueue.BlockQueue.constructor | pthread/blockQueue/BlockQueue.hpp:14-20 | a new queue is empty and unlocked with all threads at their calls |
| BlockQueue.BlockQueue.PushTurn | pthread/blockQueue/BlockQueue.hpp:33-44 | one statement of `push`, its wait loop and its signal past the high-water mark included, is the specified step |
| BlockQueue.BlockQueue.PopTurn | pthread/blockQueue/BlockQueue.hpp:22-32 | one statement of `pop`, with the single test or with a loop, is the specified step |
| BlockQueue.BlockQueue.Run | pthread/blockQueue/BlockQueue.hpp:22-44 | executing any schedule, spurious wakeups included, gives the specified state |
| BlockProtocol.FifoWithinCapacity | pthread/blockQueue/BlockQueue.hpp:22-44 | in every run what was pushed is what was popped followed by what is queued, never more than the capacity, with either form of the test |
| BlockLedger.PushedAreCalls | pthread/blockQueue/BlockQueue.hpp:33-44 | in every run, through the lock and the wait, what each producer has appended and the item it still carries are exactly the arguments of its calls, in call order; all appends in their order are what was pushed |
| BlockLedger.PoppedAreReturned | pthread/blockQueue/BlockQueue.hpp:22-32 | what each consumer has taken is exactly what its calls returned, in order, and the item it holds; all takes in their order are what was popped |
| BlockLedger.SignalWakesOne | pthread/blockQueue/BlockQueue.hpp:29-40 | a signal wakes one sleeper, the one picked, which keeps its item, and changes nobody else; it has no effect if and only if nobody sleeps |
| BlockLedger.WakesIff | pthread/blockQueue/BlockQueue.hpp:14-40 | with a sleeper on the other side a push that leaves n items wakes one if and only if 3n is more than twice the capacity, and a pop if and only if 3(n + 1) is at most the capacity |
| BlockProtocol.RecheckNeverFaults | pthread/blockQueue/BlockQueue.hpp:22-32 | with a loop in `pop`, no run takes from an empty queue |
| BlockDeadlock.SingleTestSafeIff | pthread/blockQueue/BlockQueue.hpp:22-32 | with the single test as written and no spurious wakeups, no run takes from an empty queue if and only if there is at most one consumer or nothing can be pushed |
| BlockDeadlock.StolenWakeup | pthread/blockQueue/BlockQueue.hpp:24-28 | with two consumers some run takes from an empty queue |
| BlockDeadlock.SpuriousWakeupFaults | pthread/blockQueue/BlockQueue.hpp:24-28 | with a spurious wakeup one consumer is enough for that |
| BlockProtocol.AttendedNext | pthread/blockQueue/BlockQueue.hpp:29-40 | with a capacity of at least 3 every step keeps this: an empty queue has an awake producer and a full one an awake consumer, or the thread that made it so is about to signal |
| BlockDeadlock.DeadlockMeansAllAsleep | pthread/blockQueue/BlockQueue.hpp:22-44 | as long as no consumer has taken from an empty queue, nobody can move if and only if everybody sleeps |
| BlockDeadlock.SmallCapacityGetsStuck | pthread/blockQueue/BlockQueue.hpp:14-44 | with a capacity below 3 and any numbers of threads, a run without spurious wakeups ends with all threads asleep |
| BlockDeadlock.DeadlockFreeIff | pthread/blockQueue/BlockQueue.hpp:14-44 | for the code as written and with the loop, any numbers of threads of at least one on each side, any scheduling and any wakeups, up to the first take from an empty queue (with the single test; there is none with the loop): all threads never sleep at once, and some thread can move, if and only if the capacity is at least 3 |
| BlockDeadlock.LoopDeadlockFreeIff | pthread/blockQueue/BlockQueue.hpp:14-44 | with the loop in `pop`, no run ends in a deadlock if and only if the capacity is at least 3 |
| BlockDeadlock.SingleTestSoundIff | pthread/blockQueue/BlockQueue.hpp:14-44 | as written, with any numbers of threads and no spurious wakeups: all threads never sleep at once if and only if the capacity is at least 3; neither that nor a take from an empty queue ever happens if and only if moreover there is one consumer |
| BlockProgress.NeverAtEmpty | pthread/blockQueue/BlockQueue.hpp:24-28 | with the loop, or without spurious wakeups and with one consumer, no consumer is ever about to take from an empty queue |
| BlockProgress.WorkGoesOn | pthread/blockQueue/BlockQueue.hpp:14-44 | as written and with the loop, for any numbers of threads and any past wakeups, with a capacity of at least 3: from every reachable state in which no consumer is about to take from an empty queue, some run without spurious wakeups completes a further push, and some a further pop |
| BlockProgress.SleepingProducerWakes | pthread/blockQueue/BlockQueue.hpp:29-36 | and whichever producer sleeps in such a state, some such run signals it |
| BlockProgress.SleepingConsumerWakes | pthread/blockQueue/BlockQueue.hpp:24-40 | and whichever consumer sleeps |
| ThreadPool.ThreadPool.constructor | pthread/threadPool/ThreadPool.hpp:43-46 | a new pool has no tasks, and its invariant holds |
| ThreadPool.ThreadPool.HandlerTurn | pthread/threadPool/ThreadPool.hpp:47-63 | one statement of a worker is the specified step |
| ThreadPool.ThreadPool.PushTurn | pthread/threadPool/ThreadPool.hpp:72-77 | one statement of `Push` is the specified step |
| ThreadPool.ThreadPool.Run | pthread/threadPool/ThreadPool.hpp:47-77 | executing any schedule keeps the invariant and gives the specified state |
| PoolProtocol.ReachableInv | pthread/threadPool/ThreadPool.hpp:43-77 | the invariant, which ties queue, sleepers, signals and ledgers together, holds in every state of every run |
| PoolProtocol.NoLostWakeup | pthread/threadPool/ThreadPool.hpp:47-77 | while a worker sleeps unsignalled and no pusher is about to signal, there are no more queued tasks than workers signalled or heading for the lock; spurious wakeups allowed |
| PoolProtocol.StartedOnceInOrder | pthread/threadPool/ThreadPool.hpp:47-77 | tasks start in push order, each at most once, and each worker finishes exactly what it started |
| PoolLedger.PushedAreCalls | pthread/threadPool/ThreadPool.hpp:47-77 | in every run what each pusher has appended and the task it still carries are exactly the arguments of its calls, in call order; all appends in their order are the tasks started and then those queued, so each task handed to `Push` is the one run |
| PoolProtocol.SleepersMayWake | pthread/threadPool/ThreadPool.hpp:47-55 | any sleeping worker may wake for no reason |
| PoolProtocol.TasksConserved | pthread/threadPool/ThreadPool.hpp:47-77 | pushed tasks are those queued, running and finished |
| PoolProtocol.WorkCompletes | pthread/threadPool/ThreadPool.hpp:47-77 | from every reachable state some bounded schedule without further pushes and without spurious wakeups finishes every task pushed |
| PoolProtocol.SettlingIsBounded | pthread/threadPool/ThreadPool.hpp:47-77 | every schedule of effective statements without further pushes and spurious wakeups is no longer than what is left to do |
| PoolProtocol.EveryScheduleCompletes | pthread/threadPool/ThreadPool.hpp:47-77 | every such schedule that cannot be extended has finished every task pushed |
| PoolProtocol.NeverStranded | pthread/threadPool/ThreadPool.hpp:47-77 | while a task is queued some thread in the middle of its work can move |
| Gobang.Gobang.ChessCount | GoBangGame/game.c:58-115 | the walk from the last stone ends and counts the unbroken line of its colour in that direction |
| Gobang.Gobang.CountBoth | GoBangGame/game.c:23-30 | two opposite walks and the stone itself make the line through it |
| Gobang.Gobang.FiveInLine | GoBangGame/game.c:23-32 | the test says whether one of the four lines through the last stone has at least five stones |
| Gobang.Gobang.IsOver | GoBangGame/game.c:19-56 | the report is the specified verdict on the last stone |
| Gobang.Gobang.PlayerMove | GoBangGame/game.c:154-176 | entries are read until one is on the board and its cell holds 0; exactly that cell gets the player's stone |
| Gobang.Gobang.Clear | GoBangGame/game.c:181-181 | all cells become empty |
| Gobang.Gobang.Turn | GoBangGame/game.c:186-191 | a player's turn takes the script one move further and ends the game exactly when the report does |
| Gobang.Gobang.Game | GoBangGame/game.c:178-200 | the whole loop plays the script to its end: moves, board and report are the specified ones |
| GomokuRules.LineHolds | GoBangGame/game.c:105-108 | every cell counted holds the stone's colour |
| GomokuRules.LineStops | GoBangGame/game.c:100-112 | the cell after the last one counted is off the board or of another colour |
| GomokuRules.LocalTestIsGlobal | GoBangGame/game.c:19-43 | on a board without five in a row of a player, his new stone makes one anywhere on the board, in any of the four line directions, if and only if the test around that stone says so |
| GomokuRules.OthersUnaffected | GoBangGame/game.c:19-43 | it makes no five in a row of the other player |
| GomokuGame.ReportIsGlobal | GoBangGame/game.c:19-56 | after every move of every game, on a board of any size: a player's win is reported if and only if he has five in a row somewhere, a draw if and only if nobody has and the board is full, and otherwise the game goes on |
| GomokuGame.StonesBalanced | GoBangGame/game.c:178-200 | after n moves the players have n/2 rounded up and n/2 rounded down stones |
| GomokuGame.StonesStay | GoBangGame/game.c:154-176 | a placed stone is never changed |
| GomokuGame.GameIsBounded | GoBangGame/game.c:178-200 | a game has at most row times col moves, the board is full exactly then, and the game is over by then |
| GomokuGame.ScriptPlaysGame | GoBangGame/game.c:178-200 | whatever is entered, the moves accepted form a legal game with the board and report that belong to it |
| GomokuGame.EntryCountsIff | GoBangGame/game.c:154-176 | while the game is on, an entry adds exactly its own position to the moves, with the stone of the player whose turn it is, if and only if it is on the board and its cell holds 0; otherwise it changes nothing, nor does any entry once the game is over |
| Text.StoiToString | NetCalculator/Protocol.hpp:14-25 | a written number is read back if and only if it is an int; otherwise reading throws |
| Text.DigitsAppend | NetCalculator/Protocol.hpp:14-14 | numbers are written in decimal: a digit more is ten times the number and the digit |
| Text.StoiReads | NetCalculator/Protocol.hpp:25-25 | `stoi` reads white space, a sign or none, zeros and the digits of a number, whatever follows, as that number, and throws if it is no int |
| Text.StoiThrows | NetCalculator/Protocol.hpp:25-25 | and it throws if there is no digit after white space and sign |
| Text.IsSpaceIff | return/myshell/myshell.c:58-58 | white space is the blank and the codes 9 to 13 |
| Framing.Stream.TakeFrame | NetCalculator/Protocol.hpp:21-35 | `Decode` erases exactly the frame it returns, and leaves the stream alone when it returns false or throws |
| Framing.DecodeEncode | NetCalculator/Protocol.hpp:12-35 | decoding an encoded content gives it back and leaves what follows, if its length fits an int, and throws otherwise; contents may hold anything |
| Framing.DecodePrefix | NetCalculator/Protocol.hpp:21-29 | on every strict prefix of a frame `Decode` returns false |
| Framing.DecodeIs | NetCalculator/Protocol.hpp:21-35 | `Decode` on every buffer with a header, negative lengths included: it throws if and only if the header is no int; a negative length never completes, or takes all the rest as content and erases less than that |
| Framing.DecodeNeedsHeader | NetCalculator/Protocol.hpp:22-23 | without a newline it returns false |
| Framing.DecodeShortensIff | NetCalculator/Protocol.hpp:25-32 | a successful `Decode` shortens the stream if and only if the length read is not minus the header's size and two |
| Framing.DecodeMinusFour | NetCalculator/Protocol.hpp:25-32 | a concrete header for which it does not |
| Framing.TakeAllPrefix | NetCalculator/Protocol.hpp:21-35 | repeated decoding of any initial part of a stream of frames yields exactly its complete frames and keeps the incomplete tail |
| Framing.ReceiveInChunks | NetCalculator/Protocol.hpp:12-35 | the same when the stream arrives in any pieces |
| Framing.ReceiveEverything | NetCalculator/Protocol.hpp:12-35 | once all has arrived, exactly the messages sent have been received, in order, and the buffer is empty |
| Framing.WireIsLines | NetCalculator/Protocol.hpp:12-18 | messages without newlines are on the wire lines of text: length, message, length, message, and a newline at the end |
| Calculator.Request.Serialize | NetCalculator/Protocol.hpp:39-50 | writes the specified text, which is read back to the same fields when they are ints |
| Calculator.Request.Deserialize | NetCalculator/Protocol.hpp:64-78 | fills the fields, rejects without changing them, or throws after changing the ones it had read |
| Calculator.Response.Serialize | NetCalculator/Protocol.hpp:102-109 | writes the specified text, which is read back to the same fields when they are ints |
| Calculator.Response.Deserialize | NetCalculator/Protocol.hpp:121-130 | fills the fields, rejects without changing them, or throws after changing the one it had read |
| Calculator.RequestRoundTrip | NetCalculator/Protocol.hpp:39-78 | every request with int operands survives the trip, whatever its operator, a space included; its text is the operands in decimal and the operator, between single blanks |
| Calculator.RequestIs | NetCalculator/Protocol.hpp:64-78 | a text of two parts without blanks and one character, between single blanks, is read as these, or throws if a part is no int |
| Calculator.RequestRejectedIff | NetCalculator/Protocol.hpp:64-78 | all other texts are rejected, and only they |
| Calculator.ResponseRoundTrip | NetCalculator/Protocol.hpp:102-130 | so does every response |
| Calculator.ResponseIs | NetCalculator/Protocol.hpp:121-130 | every text is split at its first blank; it is rejected if and only if it has none |
| Calculator.TruncatedDivision | NetCalculator/ServerCal.hpp:32-40 | quotient and remainder as in C++: they fit together, the remainder has the dividend's sign, and the quotient is rounded toward zero |
| Calculator.AnswersFit | NetCalculator/ServerCal.hpp:14-47 | answers are ints and the right ones, quotients and remainders truncated toward zero; code 0 goes to exactly sums, differences, products and quotients by a non-zero divisor, 1 to quotients by zero, 3 to the rest, and the result is 0 with a code other than 0 unless it is a remainder; `MODE_ZERO` never occurs |
| Calculator.DefinedIff | NetCalculator/ServerCal.hpp:14-47 | the arithmetic is defined if and only if the operands and the exact sum, difference, product or truncated quotient are ints |
| CalcServer.Connection.Calculator | NetCalculator/ServerCal.hpp:48-62 | consumes one frame from the buffer and returns its answer, or nothing |
| CalcServer.Connection.Read | NetCalculator/TcpServer.hpp:38-53 | one read: append, then answer frames until there is nothing to say |
| CalcServer.Connection.Run | NetCalculator/TcpServer.hpp:36-56 | the read loop over any chunks |
| CalcServer.DrainAnswersAll | NetCalculator/TcpServer.hpp:44-51 | on a buffer whose complete frames hold answerable requests the inner loop answers each once, in order, and keeps the tail |
| CalcServer.ServeIsReceive | NetCalculator/TcpServer.hpp:36-56 | serving chunks is receiving the messages and answering each |
| CalcServer.ServeRequests | NetCalculator/TcpServer.hpp:36-56 | for every stream of requests and every way of cutting it, one response per complete request has been sent, in order, each the encoding of that request's result, and exactly the incomplete tail is buffered |
| CalcServer.ServeAllRequests | NetCalculator/TcpServer.hpp:36-56 | once the stream is complete every request has been answered and the buffer is empty |
| CalcServer.ResponseReadsBack | NetCalculator/ServerCal.hpp:56-61 | the client decodes every response to the result and code computed |
| CalcServer.PassEmptiesBufferIff | NetCalculator/ServerCal.hpp:50-54 | one pass over complete frames empties the buffer if and only if no frame but the last is refused |
| CalcServer.AnswerShortensIff | NetCalculator/TcpServer.hpp:44-47 | an answered frame shortens the buffer, which is what makes the inner loop end, if and only if its header is not of the kind above |
| CalcServer.NegativeLengthSpins | NetCalculator/TcpServer.hpp:44-47 | with a header of that kind the inner loop does not end |
| CalcServer.DrainSpinsIff | NetCalculator/TcpServer.hpp:44-51 | for a whole buffer: the inner loop does not end if and only if, behind frames that are answered, there is one with such a header whose content is answered too |
| CalcServer.DrainDiesIff | NetCalculator/ServerCal.hpp:48-62 | the server dies in a pass, in front of this rest, if and only if frames that are answered lead to it and it starts with a header or an operand that is no int, or asks for a result that is none |
| CalcServer.StaysStuck | NetCalculator/TcpServer.hpp:36-56 | a server that has died or does not end its inner loop answers nothing any more |
| CalcServer.NulCuts | NetCalculator/TcpServer.hpp:40-41 | what follows a NUL in a read is lost |
| CalcServer.SpinExample | NetCalculator/TcpServer.hpp:44-51 | an input on which it does not end |
| CalcServer.RefusedExample | NetCalculator/ServerCal.hpp:53-54 | an input on which a complete request stays unanswered behind a refused frame |
| CalcServer.DrainPasses | NetCalculator/TcpServer.hpp:44-51 | one pass over any part of a stream of answerable and refused frames answers, in order, the answerable ones among the first frames, and stops behind a refused one or in front of an incomplete one |
| CalcServer.ServeMixed | NetCalculator/TcpServer.hpp:38-53 | for any stream of answerable and refused frames cut into reads in any way: the replies are the answers to the answerable ones among the first k, in order, and the buffer is the rest of what arrived; it starts with a complete frame only if frame k was refused |
| Descriptors.LowestFree | File/Pip/Pipe1_use/ProcessPool.cc:55-55 | a new descriptor is the lowest that is free |
| PipePool.SpawnShape | File/Pip/Pipe1_use/ProcessPool.cc:53-82 | starting a worker gives exactly these tables: the parent keeps one write end per worker; the child keeps what the program started with and, if that had a standard input, its own pipe as standard input |
| PipePool.InitPool | File/Pip/Pipe1_use/ProcessPool.cc:51-83 | so it is after any number of workers, all alive with empty pipes |
| PipePool.ParentIsOnlyWriter | File/Pip/Pipe1_use/ProcessPool.cc:51-83 | no worker holds any write end; the parent holds the write end of each pipe, and no read end |
| PipePool.WorkerReadsOwnPipe | File/Pip/Pipe1_use/ProcessPool.cc:68-70 | each worker's standard input is its own pipe, if the program was started with a standard input, and otherwise it has none; it has no other pipe end |
| PipePool.ReadsPipeIff | File/Pip/Pipe1_use/ProcessPool.cc:55-70 | a new worker's standard input is its pipe if and only if descriptor 0 was in use before, because otherwise the child closes its read end |
| PipePool.InheritedWriters | File/Pip/Pipe1_use/ProcessPool.cc:63-66 | without closing `oldfds`, worker i holds the write end of exactly the earlier workers' pipes |
| PipePool.CommandsAre | File/Pip/Pipe1_use/ProcessPool.cc:99-117 | each choice from 1 to 4 is the command of the number below it, up to the first choice that is none of these |
| PipePool.RunsAre | File/Pip/Pipe1_use/ProcessPool.cc:40-43 | of the commands it reads a worker runs exactly those from 0 to 3, each where it comes |
| PipePool.EnteredIs | File/Pip/Pipe1_use/ProcessPool.cc:99-107 | the menu can be read if and only if the program was started with a standard input |
| PipePool.ShareSize | File/Pip/Pipe1_use/ProcessPool.cc:117-120 | how many of the commands dealt round robin a worker gets |
| PipePool.ShareAt | File/Pip/Pipe1_use/ProcessPool.cc:117-120 | worker i's j-th command is command n * j + i |
| PipePool.SharesBalanced | File/Pip/Pipe1_use/ProcessPool.cc:117-120 | the workers' numbers of commands differ by at most one |
| PipePool.Deal | File/Pip/Pipe1_use/ProcessPool.cc:99-124 | dealing puts into each worker's pipe exactly its share, in order, and changes nothing else |
| PipePool.TakeEarly | File/Pip/Pipe1_use/ProcessPool.cc:35-45 | when a worker reads a command makes no difference to what it has run at its end, nor to later writes |
| PipePool.CleanShutdown | File/Pip/Pipe1_use/ProcessPool.cc:125-134 | with the closes in the children and a standard input to read, closing and waiting never blocks, in whatever order, and every worker has read, through its descriptor 0, its pipe to the end |
| PipePool.UncleanShutdownIff | File/Pip/Pipe1_use/ProcessPool.cc:125-134 | without the closes it gets through if and only if the order is last to first and the workers have a standard input to read; the program's order is that one only with at most one worker |
| PipePool.EveryCommandRunsOnce | File/Pip/Pipe1_use/ProcessPool.cc:99-134 | from start to end, if the program was started with a standard input, every write finds a reader, nothing blocks, and worker i has run commands i, i + n, i + 2n, ... in order before it saw the end of its pipe |
| PipePool.CanDealIff | File/Pip/Pipe1_use/ProcessPool.cc:99-124 | given commands all find a reader if and only if the program was started with a standard input or there is none of them |
| PipePool.ProgramEndsIff | File/Pip/Pipe1_use/ProcessPool.cc:51-134 | for any number of workers, any input and any order of shutting down: the program gets to its end if and only if it was started with a standard input; otherwise the menu reads no command, no write is attempted, and a wait never ends |
| ProcessPool.ProcessPool.InitProcessPool | File/Pip/Pipe1_use/ProcessPool.cc:51-83 | the loop over `pipe`, `fork` and the closes builds the specified tables |
| ProcessPool.ProcessPool.StartWorker | File/Pip/Pipe1_use/ProcessPool.cc:54-80 | one iteration of it |
| ProcessPool.ProcessPool.ChildStart | File/Pip/Pipe1_use/ProcessPool.cc:60-70 | the child's closes and its `dup2` give the specified table |
| ProcessPool.ProcessPool.CtrlSlaver | File/Pip/Pipe1_use/ProcessPool.cc:99-124 | the menu loop with its counter `which` sends the choices it can read up to the first that is not 1 to 4, round robin; it is killed if and only if one goes to a pipe nobody can read |
| ProcessPool.ProcessPool.ReadChoice | File/Pip/Pipe1_use/ProcessPool.cc:102-105 | a choice is the next number of the input, and 0 at its end or when descriptor 0 is not open |
| ProcessPool.ProcessPool.Slaver | File/Pip/Pipe1_use/ProcessPool.cc:34-46 | a worker's loop reads the pipe its descriptor 0 leads to up to the end and runs the commands that have an entry in the task table |
| ProcessPool.ProcessPool.Wait | File/Pip/Pipe1_use/ProcessPool.cc:133-133 | waiting ends if and only if the worker reads a pipe and can get to its end, if need be after others |
| ProcessPool.ProcessPool.QuitProcess | File/Pip/Pipe1_use/ProcessPool.cc:125-134 | closing and waiting, first to last, is the specified shutdown |
| ProcessPool.ProcessPool.RunAll | File/Pip/Pipe1_use/ProcessPool.cc:139-155 | the whole program gets to its end if and only if it was started with a standard input, and then each worker has run exactly its share |
| CommandLine.WordsOfLine | return/myshell/myshell.c:94-100 | the words written to a line come back, however many blanks there are around them |
| CommandLine.RedirectOf | return/myshell/myshell.c:46-81 | what is read after the arrow, in all cases |
| CommandLine.ReadBack | return/myshell/myshell.c:46-100 | words and their number come back from every line; the redirection does if and only if its file name does not start with white space, nor with `>` right after a `>` |
| Shell.Shell.PassSpace | return/myshell/myshell.c:58-58 | moves to the first character that is no white space |
| Shell.Shell.CheckRedir | return/myshell/myshell.c:46-81 | overwriting the arrow in place leaves the command at the start of the buffer, and kind and file name are those of the first arrow |
| Shell.Shell.Strtok | return/myshell/myshell.c:97-98 | takes the next word off the buffer, ended in place, and touches nothing outside the string it was given |
| Shell.Shell.SplitString | return/myshell/myshell.c:94-100 | the arguments are exactly the words, ended by a null pointer; the result is their number, but 1 when there is none |
| Shell.Shell.ColorLs | return/myshell/myshell.c:183-187 | `ls` gets one more argument, and the vector stays ended by a null pointer |
| Shell.Shell.Interact | return/myshell/myshell.c:90-92 | the newline goes, and the redirection is cut off |
| Shell.Shell.ReadCommand | return/myshell/myshell.c:193-204 | from the stored line to the arguments and the redirection; splitting leaves the file name alone although it lies in the same buffer |
| Shell.ReadBackInPlace | return/myshell/myshell.c:46-100 | the round trip in the buffer: whatever words, gaps and redirection are in the line, the arguments, their number, the null pointer and, if and only if it is clear, the redirection come back |
| HttpRequest.HttpRequest.Deserialize | HTTPV1/HttpServer.hpp:31-41 | the loop that erases lines from the front appends the specified headers and sets the text |
| HttpRequest.Rebuild | HTTPV1/HttpServer.hpp:31-41 | for every input, the header lines with their line ends and then the text are the request; lines are not empty and hold no line end; the text starts with a line end or holds none |
| HttpRequest.ParseIff | HTTPV1/HttpServer.hpp:31-41 | the result is the only division of the request of that kind |
| HttpRequest.WholeRequest | HTTPV1/HttpServer.hpp:31-41 | for lines, an empty line and a body, the headers are exactly the lines, and the text is CRLF and the body |
| PollServer.PollServer.constructor | IOModel/PollServer/PollServer.hpp:16-26 | all slots are free |
| PollServer.PollServer.Accepter | IOModel/PollServer/PollServer.hpp:35-68 | the scan for a free slot and the change of the table are the specified accept; it waits when nobody wants to connect |
| PollServer.PollServer.Recver | IOModel/PollServer/PollServer.hpp:69-90 | one read, and the close when it gives no data; it waits when there is nothing to read |
| PollServer.PollServer.Dispatcher | IOModel/PollServer/PollServer.hpp:91-111 | the sweep over the table, during which the table changes, is the specified one |
| PollServer.PollServer.Poll | IOModel/PollServer/PollServer.hpp:133-133 | the report of `poll` goes to `revents` of the slots in use, the others are cleared, and nothing else changes |
| PollServer.PollServer.Start | IOModel/PollServer/PollServer.hpp:28-149 | after any events the listening socket is in slot 0, the table holds exactly the open sockets, and reads, open sockets and waiting are those of the run without time-outs and errors |
| PollTable.TableIsOpenSockets | IOModel/PollServer/PollServer.hpp:35-149 | in every run slot 0 is the listening socket, occupied slots hold different descriptors, they are exactly the open sockets, and no socket was closed twice |
| PollTable.PollReports | IOModel/PollServer/PollServer.hpp:133-133 | a slot in use gets what was reported for it, a free one 0; nothing else changes |
| PollTable.QuietStep | IOModel/PollServer/PollServer.hpp:134-141 | after a time-out or an error of `poll` nothing is read, accepted or closed, the server does not wait, and every slot keeps descriptor and events |
| PollTable.QuietEventsIgnored | IOModel/PollServer/PollServer.hpp:131-148 | wherever time-outs and errors come in a run, sockets read, sockets open, waiting and slots are those of the run without them |
| PollTable.WaitsForEver | IOModel/PollServer/PollServer.hpp:131-148 | a server that waits in `accept` or `read` does nothing any more |
| PollTable.SweepReadsAll | IOModel/PollServer/PollServer.hpp:91-111 | a sweep accepts the waiting connection and then reads once from every connection in the table, the new one included, in slot order, up to the first that has nothing to read; it leaves in the table exactly those that gave data, those with nothing to read and those not reached |
| PollTable.SweepStopsIff | IOModel/PollServer/PollServer.hpp:91-111 | whatever `poll` reported, a sweep waits for ever if and only if nobody wants to connect or some connection has nothing to read |
| PollTable.ReportsIgnored | IOModel/PollServer/PollServer.hpp:91-111 | two runs that differ only in what `poll` reported read the same sockets in the same order, keep the same open and get stuck at the same place |
| PollTable.ReadsOnlyReportedIff | IOModel/PollServer/PollServer.hpp:91-111 | a sweep reads only reported sockets if and only if every connection in the table after the accept, as far as the sweep gets, was reported |
| PollTable.ReadsUnreported | IOModel/PollServer/PollServer.hpp:91-111 | an input on which it does not |
| PollTable.SweepKeepsOpenIff | IOModel/PollServer/PollServer.hpp:69-111 | which sockets are open after a sweep |
| PollTable.TurnedAwayIff | IOModel/PollServer/PollServer.hpp:46-67 | a connection is turned away, and closed at once, if and only if as many sockets are open as there are slots; otherwise it gets the first free slot and nothing else changes, as nothing does when `accept` fails |

## Left out

- RingQueue.RingQueue.PushTurn: `sem_wait`, `pthread_mutex_lock` and the like never fail, as in the source, which ignores what they return; a capacity that is not positive is not modelled, because the ring's `% _cap` and its vector need one that is.
- BlockQueue.BlockQueue.constructor: does not model a negative `maxcap` or the overflow of `_maxcap*2`.
- BlockQueue.BlockQueue.PopTurn: taking the front of an empty queue is undefined behaviour; the model stops that consumer in a state of its own, and what the theorems say of such a run is about the time before.
- BlockQueue.BlockQueue.PushTurn: a signal wakes exactly one sleeper, any one, if there is one; POSIX also allows more, which the separate spurious wakeups cover.
- RingQueue.RingQueue.Run: fairness and timing (`sleep`, `usleep`) are not modelled; progress is stated as the existence of a step or of a completing schedule.
- ThreadPool.ThreadPool.HandlerTurn: thread names, `GetResult` and printing; running a task is one step.
- Gobang.Gobang.Game: the end of the input ends the game in the model, while `scanf` would leave the old entry in place and the program would ask for ever; `ShowBoard`, the menus and the messages at the end are not modelled.
- Gobang.Gobang.ChessCount: the `default` case of the direction switch, which no caller reaches.
- Calculator.Request.Serialize: the JSON form of requests and responses, whose library is not part of this model; the texts are those of the `Myself` branches.
- Framing.DecodeShortensIff: buffers of 2^63 characters and more, which no string can hold.
- CalcServer.AnswerShortensIff: the same.
- Calculator.AnswersFit: signed overflow is undefined in C++; such requests count as breaking the server, and the theorems about serving are about requests whose result is an int.
- CalcServer.Connection.Read: the write of `buffer[n]` one past the 128-byte array when a read fills it, partial writes of a response, and logging; the buffers on which the inner loop does not end, which `AnswerShortensIff` describes; a NUL in a chunk ends that chunk, as in the source.
- CalcServer.ServeRequests: the operator is not the NUL character, which the C string append would cut the stream at.
- ProcessPool.ProcessPool.Wait: pipes have no capacity limit, `read` and `write` of a command are whole, and `fork`, `pipe`, `dup2` and `close` succeed, as the source takes for granted.
- ProcessPool.ProcessPool.InitProcessPool: the table at the start holds no pipe ends; the number of workers is arbitrary instead of 5.
- ProcessPool.ProcessPool.CtrlSlaver: a write without a reader ends the program, as the default action of SIGPIPE does; what the workers do afterwards is not modelled.
- Shell.Shell.SplitString: the source's `argv` has 30 entries and no test; the model asks for less than 30 words, and for less than 29 when `ls` gets its extra argument, since more would be written past the end.
- Shell.Shell.Interact: NUL characters in the input line, and the end of the input.
- Shell.Shell.ReadCommand: what happens to the arguments afterwards (`cd`, `export`, `echo`, `exec`, opening the redirection's file); for a blank line the program goes on to compare a null `argv[0]`.
- HttpRequest.HttpRequest.Deserialize: `Prase` and the rest of the HTTP server.
- PollServer.PollServer.Accepter: `accept` gives the lowest free descriptor, fails, or waits; `close` succeeds; addresses and messages are not modelled.
- PollServer.PollServer.Recver: what is read is only printed by the source, so only its length matters. A server that waits in `accept` or `read` stays there in the model; one for which something comes in the end is the case in which it comes at once.
- The buffered writer `File/Huanchong/myStd/Mystdio.c`: it would only add easy members.
- The second thread pool `NetWork/TCP/ThreadPool.hpp`, the select server, the reactor, `pthread/ticket.cc`, the task classes and the logs: duplicates of what is modelled, unfinished, or easy.
- Sockets, `epoll`, signals, daemons, shared memory, FIFOs and files: calls into code that is not part of this model.
