# Study programs, proved

A Dafny model of the small concurrent and byte-handling programs of a C and C++ study repository, with proofs
about every run of them. `dafny verify dfyconfig.toml` checks everything.

A concurrent program is a step system (`Runs.dfy`): a total function from a state and an action, which names
the thread that moves and what the environment decides, to the next state, or None when that thread is blocked.
Any number of threads, any capacity, any order of steps. Where the source has a class or global variables, a Dafny
class executes one statement per call, and each of its methods is proved equal to the function the step system is built from.
What happens in a run is a trace of events, not extra state. The semantics of `sem_wait`, `sem_post`,
`pthread_cond_wait` and `pthread_cond_signal` are those of POSIX.1-2017: waiting releases the mutex and sleeps in one
step, a signal wakes a waiter if there is one, spurious wakeups can happen at any time, a woken thread takes the mutex again.

| file | program | main results |
|---|---|---|
| `BoundedFifo.dfy` | the abstract queue | order of values, per-producer order, from its traces alone |
| `RingQueue.dfy`, `Cyclic.dfy` | three semaphores and a cyclic array | refines the FIFO, conserves its tokens, never overwrites, never deadlocks, consumers get what they take |
| `BlockQueue.dfy` | one mutex, two condition variables, signal after unlock | refines the FIFO, loses no wakeup, never deadlocks, never waits busily, consumers get what they take |
| `Delicacy.dfy` | the kitchen with one place | behaves step for step like `BlockQueue` with capacity 1 |
| `ThreadPool.dfy` | the thread pool | every task in exactly one place, dispatched in order, none stranded, runs end |
| `RacyCounter.dfy`, `LockedCounter.dfy`, `Tickets.dfy` | counters without and with a lock, the ticket sale | the exact set of final values |
| `Philosophers.dfy` | the ring of chopsticks | exclusion; stuck if and only if all hold one; rounds of four operations |
| `SpscRing.dfy` | the ring without a lock | slots disjoint, first in first out, no zeroed slot consumed, unused slots zero |
| `MsgList.dfy`, `MsgNodes.dfy` | the shared linked lists | no dangling pointer, no double free, order from draw to print, no lost wakeup, no busy waiting; the pointer code itself |
| `Stream.dfy`, `RoundTrip.dfy` | `Readn`, `Writen`, `Readline` | results that do not depend on chunks and interruptions, failure exactly at a hard error, round trips |
| `SelectServer.dfy` | the `select` server | table invariant, each ready descriptor answered once and rightly, the table never full |
| `Tokenizer.dfy` | three command-line splitters | the words of the line, in order |
| `RequestLine.dfy` | the web server's in-place parser | round trip with the client's request |

Two things these programs do differ from what a reader would expect, and are stated as they are.
`Readline` returns one more than it stored when the line fills the caller's buffer (`Stream.ResultIsLength` says
exactly when, `Stream.TruncatedResult` gives an input). The client's request line comes back whole
only if the input has no space in it (`RequestLine.RoundTrip`).

In the ring queue, the block queue and the thread pool the queue changes only under the lock, so the order in which
values go in and come out is the order of those statements.

## Model

| member | source | states |
|---|---|---|
| `RingQueue.RingQueue.constructor` | bite/pthread/con_pro.cpp:13-22 | a new queue is empty, with as many space tokens as slots and the lock free |
| `RingQueue.RingQueue.PushStep` | bite/pthread/con_pro.cpp:29-41 | one statement of Push changes array, index and semaphores exactly as PushStatement says, or blocks |
| `RingQueue.RingQueue.PopStep` | bite/pthread/con_pro.cpp:42-53 | one statement of Pop changes index and semaphores exactly as PopStatement says, or blocks |
| `RingQueue.LockIsExclusive` | bite/pthread/con_pro.cpp:34-37 | the semaphore used as a lock keeps two threads from being inside at once |
| `RingQueue.TokenConservation` | bite/pthread/con_pro.cpp:19-51 | in every reachable state space tokens, data tokens and the tokens threads hold add up to the capacity, and one token is in the lock or with the one thread inside |
| `RingQueue.RefinesFifo` | bite/pthread/con_pro.cpp:29-53 | every run is a run of the bounded FIFO whose content is the array read cyclically from the read index; what was pushed is what was popped followed by that |
| `RingQueue.NeverOverwrites` | bite/pthread/con_pro.cpp:32-36 | a writer at its write statement finds a slot that holds no unread value |
| `RingQueue.ReadsOldest` | bite/pthread/con_pro.cpp:44-48 | a reader at its read statement finds a stored value, the oldest |
| `RingQueue.DeadlockFree` | bite/pthread/con_pro.cpp:32-51 | with a producer and a consumer some thread can move in every reachable state |
| `RingQueue.PerProducerOrder` | bite/pthread/con_pro.cpp:66-90 | what is popped of one producer's values is 0, 1, 2, ... without gap or repeat |
| `RingQueue.PrintsWhatItTakes` | bite/pthread/con_pro.cpp:47-87 | in every run the values a consumer prints are those of its own Takes, in order, less the one it may have in hand |
| `RingQueue.HoldsLastTaken` | bite/pthread/con_pro.cpp:47-52 | in every run a consumer that has taken something has the value of its last Take in its cell, except between reading the next slot and moving the index |
| `BlockQueue.BlockQueue.constructor` | bite/pthread/pro_con.cpp:16-22 | a new queue is empty and unlocked |
| `BlockQueue.BlockQueue.PushStep` | bite/pthread/pro_con.cpp:30-40 | one statement of Push, the wait loop included, changes the queue and the mutex exactly as PushStatement says, or blocks |
| `BlockQueue.BlockQueue.PopStep` | bite/pthread/pro_con.cpp:41-52 | the same for Pop |
| `BlockQueue.RefinesFifo` | bite/pthread/pro_con.cpp:30-52 | every run is a run of the bounded FIFO with the queue as its content |
| `BlockQueue.WakeupsAreNotLost` | bite/pthread/pro_con.cpp:33-38 | while a consumer sleeps the items are no more than the producers still to signal plus the consumers awake, and the same for sleeping producers and free places |
| `BlockQueue.DeadlockFree` | bite/pthread/pro_con.cpp:30-52 | with a producer and a consumer no reachable state is stuck, spurious wakeups not counted |
| `BlockQueue.PerProducerOrder` | bite/pthread/pro_con.cpp:55-79 | what is popped of one producer's values is 0, 1, 2, ... without gap or repeat |
| `BlockQueue.PrintsWhatItTakes` | bite/pthread/pro_con.cpp:47-77 | in every run the values a consumer prints are those of its own Takes, in order, less the one it may have in hand |
| `BlockQueue.HoldsLastTaken` | bite/pthread/pro_con.cpp:47-48 | in every run a consumer that has taken something has the value of its last Take in its cell |
| `BlockQueue.NoBusyWaiting` | bite/pthread/pro_con.cpp:33-46 | a thread that cannot go on sleeps: the steps of a run are bounded by the values moved and the spurious wakeups, so values keep moving |
| `BoundedFifo.FifoOrder` | bite/pthread/pro_con.cpp:36-48 | of any trace: values in are values out followed by what is inside, never more than the capacity |
| `BoundedFifo.PerProducerOrder` | bite/pthread/con_pro.cpp:66-90 | of any trace: the j-th value out is the j-th in, so each producer's values come out in its own order |
| `Delicacy.Counter.ChiefStep` | bite/pthread/cond.c:28-43 | one statement of a chief changes the globals as ChiefStatement says |
| `Delicacy.Counter.GourmetStep` | bite/pthread/cond.c:10-26 | one statement of a gourmet changes the globals as GourmetStatement says |
| `Delicacy.Lockstep` | bite/pthread/cond.c:10-43 | the kitchen and the block queue of capacity 1 can make the same step, and end corresponding |
| `Delicacy.RunsAgree` | bite/pthread/cond.c:10-43 | from corresponding states the same sequences of actions are runs of both, and they end corresponding |
| `Delicacy.KitchenIsQueue` | bite/pthread/cond.c:9-43 | from the start, a sequence of actions is a run of the kitchen if and only if it is one of the capacity-1 queue, and ends with as many dishes as items |
| `Delicacy.OneDishNoDeadlock` | bite/pthread/cond.c:10-43 | there are always 0 or 1 dishes, and with a chief and a gourmet some thread can always move |
| `ThreadPool.ThreadPool.constructor` | bite/pthread/threadPool.cpp:39-46 | a new pool has no task and is unlocked |
| `ThreadPool.ThreadPool.PushTaskStep` | bite/pthread/threadPool.cpp:71-78 | one statement of PushTask, as PushTaskStatement says |
| `ThreadPool.ThreadPool.WorkerStep` | bite/pthread/threadPool.cpp:84-94 | one statement of the worker loop, as WorkerStatement says |
| `ThreadPool.StepConserves` | bite/pthread/threadPool.cpp:71-97 | a step moves a task from one place to the next or finishes it; none appears or disappears |
| `ThreadPool.TaskAccounting` | bite/pthread/threadPool.cpp:71-97 | after any run each job is unsubmitted, queued, held by a worker or finished, with multiplicity |
| `ThreadPool.NeverTwice` | bite/pthread/threadPool.cpp:89-93 | a job listed once is never held by two workers, never held and queued or finished, and finished at most once |
| `ThreadPool.DispatchOrder` | bite/pthread/threadPool.cpp:74-90 | tasks are dispatched in the order of submission |
| `ThreadPool.NothingStranded` | bite/pthread/threadPool.cpp:71-97 | when no thread can move, the queue is empty and every job has run as often as it was given |
| `ThreadPool.RunsAreBounded` | bite/pthread/threadPool.cpp:71-97 | a run has at most a computed number of steps plus three for each spurious wakeup |
| `RacyCounter.Shared.DoitStep` | LinuxC/pthread/mutex/pth_nomutex.c:28-32 | the load or the store of one thread, as DoitStatement says |
| `RacyCounter.FinalBounds` | LinuxC/pthread/mutex/pth_nomutex.c:28-32 | no complete run of two threads ends below 2 (or below the loop bound if that is less) or above twice the bound |
| `RacyCounter.HighValues` | LinuxC/pthread/mutex/pth_nomutex.c:28-32 | a run is constructed for every value from the bound to twice the bound |
| `RacyCounter.LowValues` | LinuxC/pthread/mutex/pth_nomutex.c:28-32 | a run is constructed for every value from 2 to the bound plus one |
| `RacyCounter.FinalValues` | LinuxC/pthread/mutex/pth_nomutex.c:24-35 | a value is the end of some run if and only if it is in the range |
| `LockedCounter.Shared.DoitStep` | LinuxC/pthread/mutex/pth_mutex.c:29-37 | one statement of the locked loop, as DoitStatement says |
| `LockedCounter.CountsEverything` | LinuxC/pthread/mutex/pth_mutex.c:29-37 | every run is bounded, and when no thread can move the counter is threads times iterations |
| `Tickets.Shared.SellStep` | bite/pthread/tout.c:16-35 | one statement of a tout, as SellStatement says |
| `Tickets.EveryRun` | bite/pthread/tout.c:14-37 | in every run the tickets stay at or above one less the threads, the run is bounded, and it ends with all threads gone and no ticket left |
| `Tickets.PrintedNumbers` | bite/pthread/tout.c:21-27 | the numbers printed are consecutive from the first ticket downward |
| `Tickets.Oversell` | bite/pthread/tout.c:14-37 | a run is constructed for every overselling up to the number of threads less one |
| `Tickets.FinalValues` | bite/pthread/tout.c:14-37 | a value is left at the end of some run if and only if it is between one less the threads and zero |
| `Philosophers.Table.PhilosopherStep` | LinuxC/pthread/TheDinningPhilosophersProblem/phil_pro_mutex.c:16-27 | one lock or unlock of a philosopher, as Statement says |
| `Philosophers.NeighboursExclude` | LinuxC/pthread/TheDinningPhilosophersProblem/phil_pro_mutex.c:19-26 | no chopstick is in two hands, neighbours never have both theirs |
| `Philosophers.DeadlockExactly` | LinuxC/pthread/TheDinningPhilosophersProblem/phil_pro_mutex.c:16-30 | whichever philosophers run, a reachable state is stuck if and only if all hold their own chopstick and wait for the next; with one missing none is |
| `Philosophers.DeadlockReachable` | LinuxC/pthread/TheDinningPhilosophersProblem/phil_pro_mutex.c:19-22 | that state is reachable, for every ring size |
| `Philosophers.RoundsOfFour` | LinuxC/pthread/TheDinningPhilosophersProblem/phil_pro_mutex.c:16-27 | in every run each philosopher's operations on the mutexes are rounds of the same four, so both chopsticks are put back before either is taken again |
| `SpscRing.Shared.ProducerStep` | LinuxC/pthread/semaphore/pth_sem.c:13-20 | one statement of the producer on the array, as the step system says |
| `SpscRing.Shared.ConsumerStep` | LinuxC/pthread/semaphore/pth_sem.c:26-33 | one statement of the consumer on the array, as the step system says |
| `SpscRing.SlotsDiffer` | LinuxC/pthread/semaphore/pth_sem.c:15-31 | between wait and post the two threads are never at the same slot |
| `SpscRing.RingIsFifo` | LinuxC/pthread/semaphore/pth_sem.c:11-35 | every run is a run of the bounded FIFO, and the values consumed are a prefix of those produced, none of them zero |
| `SpscRing.PutsWhatItDraws` | LinuxC/pthread/semaphore/pth_sem.c:16-17 | the numbers that go in are those the producer drew, in order, less one not yet announced |
| `SpscRing.UnusedSlotsAreZero` | LinuxC/pthread/semaphore/pth_sem.c:30 | in every reachable state the slots behind the last unread value hold 0, but for the one in a thread's hands |
| `MsgNodes.List.Tail` | LinuxC/pthread/conditionVariable/pth_cond_test.c:46-49 | the walk ends at the last node |
| `MsgNodes.List.Append` | LinuxC/pthread/conditionVariable/pth_cond_test.c:45-53 | the node goes to the far end, the list stays linked and no number changes |
| `MsgNodes.List.Push` | LinuxC/pthread/conditionVariable/pth_cond.c:40-41 | the node goes to the head and the list stays linked |
| `MsgNodes.List.Remove` | LinuxC/pthread/conditionVariable/pth_cond_test.c:24-25 | the first node leaves and no pointer to it stays behind |
| `MsgNodes.OneChain` | LinuxC/pthread/conditionVariable/pth_cond_test.c:6-11 | the head determines the list: the auxiliary sequence of nodes is unique |
| `MsgList.MemorySafe` | LinuxC/pthread/conditionVariable/pth_cond_test.c:15-59 | in every interleaving no freed node is followed or freed again, the list is acyclic, every allocated node has exactly one owner |
| `MsgList.RefinesShelf` | LinuxC/pthread/conditionVariable/pth_cond.c:14-46 | the list behaves as a queue or a stack of its numbers |
| `MsgList.ShownNumbers` | LinuxC/pthread/conditionVariable/pth_cond_test.c:15-59 | numbers shown are those put into the list, in order when appending; none lost or repeated when pushing |
| `MsgList.PutsWhatItDraws` | LinuxC/pthread/conditionVariable/pth_cond_test.c:39-53 | the numbers put into the list are those the producer drew, in order, less the one in a node not yet linked |
| `MsgList.ShownAreDrawn` | LinuxC/pthread/conditionVariable/pth_cond.c:14-46 | from draw to print: shown, in hand, in the list and not yet linked make up the numbers drawn, in order when appending |
| `MsgList.NoLostWakeup` | LinuxC/pthread/conditionVariable/pth_cond_test.c:20-22 | the consumer sleeps on a non-empty list only while the producer is about to signal; some thread can always move |
| `MsgList.NoBusyWaiting` | LinuxC/pthread/conditionVariable/pth_cond_test.c:20-23 | a consumer that finds the list empty sleeps: its steps are bounded by the nodes linked and the spurious wakeups |
| `Stream.Readn` | LinuxC/socket/TCP/wrap.c:88-107 | the first n bytes of the stream or all of a shorter one, under any chunks and interruptions; -1 if and only if an outcome it used up is a hard error, at which it stops, and then nothing is lost |
| `Stream.Writen` | LinuxC/socket/TCP/wrap.c:109-127 | all n bytes in order under any partial writes; -1 if and only if an outcome it used up is a hard error or an empty write, at which it stops with a prefix sent |
| `Stream.LineBuffer.Fill` | LinuxC/socket/TCP/wrap.c:136-142 | it uses up the interruptions and the outcome behind them, fails if and only if that is a hard error, leaving the stream alone, and otherwise the buffer takes a prefix of the stream |
| `Stream.LineBuffer.Refill` | LinuxC/socket/TCP/wrap.c:135-144 | what is pending does not change; 0 only at the end of it, -1 if and only if the read met a hard error |
| `Stream.LineBuffer.Next` | LinuxC/socket/TCP/wrap.c:145-147 | the first buffered byte is handed out |
| `Stream.LineBuffer.MyRead` | LinuxC/socket/TCP/wrap.c:129-148 | the first pending byte is handed out, without a read while the buffer has one; -1 if and only if the read met a hard error, and else 0 if and only if nothing is pending |
| `Stream.LineBuffer.Readline` | LinuxC/socket/TCP/wrap.c:150-168 | what is stored and what is left pending make up what was pending, the line ends at the first newline, the room or the end, a NUL follows it and the rest of the caller's buffer stays; -1 if and only if an outcome it used up is a hard error, at which it stops |
| `Stream.FailsExactly` | LinuxC/socket/TCP/wrap.c:95-99 | the stopping rule of the wrappers: they give up if and only if they met a fatal outcome |
| `Stream.OneReadFails` | LinuxC/socket/TCP/wrap.c:137-140 | one read fails if and only if the first outcome that is not an interruption is a hard error, and uses up the outcomes up to that one |
| `Stream.ReadlineDetermined` | LinuxC/socket/TCP/wrap.c:129-168 | the contract of Readline holds of exactly one result, a function of the pending bytes and maxlen: independent of chunks |
| `Stream.LineLengthShape` | LinuxC/socket/TCP/wrap.c:155-166 | the next line has a newline only at its end, and without one fills the room or is all there is |
| `Stream.ResultIsLength` | LinuxC/socket/TCP/wrap.c:155-167 | the result is the stored length if and only if the line is not truncated |
| `Stream.TruncatedResult` | LinuxC/socket/TCP/wrap.c:155-167 | an input on which the result is one more than the stored length |
| `RoundTrip.FirstLine` | LinuxC/socket/TCP/wrap.c:150-168 | the next line of a stream of lines is the first one, whole |
| `RoundTrip.ReceiveOne` | LinuxC/socket/TCP/wrap.c:150-168 | without errors one Readline takes exactly the next line off what is pending |
| `RoundTrip.SendAndReceive` | LinuxC/socket/TCP/wrap.c:109-168 | lines sent with Writen come back from Readline as the same lines in the same order, under any two scripts without errors |
| `RoundTrip.Receive` | LinuxC/socket/TCP/wrap.c:129-168 | repeated Readline until 0 takes a stream of lines apart into those lines |
| `RoundTrip.SendAndReadn` | LinuxC/socket/TCP/wrap.c:88-127 | Writen and then Readn give the same bytes |
| `SelectServer.UpperCase` | LinuxC/socket/TCP/server.c:79-81 | the buffer in upper case |
| `SelectServer.Server.constructor` | LinuxC/socket/TCP/server.c:35-41 | the start: only the listening descriptor |
| `SelectServer.Server.AddClient` | LinuxC/socket/TCP/server.c:51-66 | the client goes to the first free slot, maxi and maxfd rise if they must and the tables still agree, or the table is full |
| `SelectServer.Server.ServeSlot` | LinuxC/socket/TCP/server.c:74-83 | the client is closed and its slot freed, or its bytes go back in upper case |
| `SelectServer.Server.VisitSlots` | LinuxC/socket/TCP/server.c:70-87 | where the loop stops and what it has done by then |
| `SelectServer.Server.ServeClients` | LinuxC/socket/TCP/server.c:70-87 | with its early exit the loop does what visiting all slots would do |
| `SelectServer.Server.Round` | LinuxC/socket/TCP/server.c:44-87 | one round, both early exits included, keeps the tables in agreement and is the round IsRound describes; it ends the program only at an error or a full table |
| `SelectServer.Finished` | LinuxC/socket/TCP/server.c:84-85 | stopping when the count runs out skips no ready client |
| `SelectServer.NothingElseReady` | LinuxC/socket/TCP/server.c:67-68 | nor does going back to select right after the accept |
| `SelectServer.ServedOnce` | LinuxC/socket/TCP/server.c:70-87 | the clients served are the ready ones in the table, each once |
| `SelectServer.EachReadyOnce` | LinuxC/socket/TCP/server.c:43-88 | every reported descriptor is served exactly once and no other is; the client just accepted is not |
| `SelectServer.RoundAnswers` | LinuxC/socket/TCP/server.c:74-83 | after the accept every event answers a ready client and every ready client is answered: closed if it gives no bytes, else sent back as many bytes, lower-case letters 32 lower and the others unchanged |
| `SelectServer.RoundTable` | LinuxC/socket/TCP/server.c:53-77 | exactly the ready clients that give no bytes leave the table and allset, every other slot keeps its client, the new one is in the first free slot |
| `SelectServer.StaysConsistent` | LinuxC/socket/TCP/server.c:74-77 | closing clients keeps client, maxi, maxfd and allset in agreement |
| `SelectServer.NeverFull` | LinuxC/socket/TCP/server.c:53-61 | if every descriptor is below FD_SETSIZE there is a free slot, so the exit for too many clients is not reached |
| `Tokenizer.WordsAreWords` | bite/pctrl/shell.c:20-29 | the words are non-empty, without white space, and contain all the other bytes in order |
| `Tokenizer.SplitsAtSpace` | bite/pctrl/shell.c:20-29 | white space separates words |
| `Tokenizer.OneWord` | bite/pctrl/shell.c:23-25 | nothing else does |
| `Tokenizer.SixSpaces` | bite/pctrl/shell.c:21 | isspace in the C locale is true of six characters |
| `Tokenizer.Strlen` | bite/pctrl/shell.c:15 | the length of the line in the buffer |
| `Tokenizer.WordEnd` | bite/pctrl/shell.c:23-25 | the inner loop stops at the end of the word |
| `Tokenizer.CutHere` | bite/pctrl/shell.c:21-27 | the word is recorded and ended by a NUL, and what is ahead and behind stays |
| `Tokenizer.ShellSplit` | bite/pctrl/shell.c:15-30 | the strings at argv are the words of the line, in order, followed by NULL |
| `Tokenizer.MyshellSplit` | bite/pctrl/Myshell.c:14-29 | the same for the pointer walk |
| `Tokenizer.MiniShellSplit` | bite/pctrl/mini_shell.c:17-62 | the same when no word begins with a redirection sign, and the flag stays 0 |
| `Tokenizer.TrailingSpace` | bite/pctrl/shell.c:15 | overwriting the final newline loses no word |
| `RequestLine.StepOverSpaces` | LinuxC/socket/Webserver/Webserver.c:28-29 | the loop over blanks |
| `RequestLine.MovePath` | LinuxC/socket/Webserver/Webserver.c:30-31 | the overlapping copy moves the path, as the write index stays behind the read index, and nothing behind it |
| `RequestLine.CopyVersion` | LinuxC/socket/Webserver/Webserver.c:35-36 | the version is copied out |
| `RequestLine.TakePath` | LinuxC/socket/Webserver/Webserver.c:28-32 | the path and a NUL are at the front of the buffer, the rest of the request is where it was |
| `RequestLine.TakeVersion` | LinuxC/socket/Webserver/Webserver.c:33-37 | the version and a NUL are in http |
| `RequestLine.ParseRequest` | LinuxC/socket/Webserver/Webserver.c:27-37 | for every request and every count from read: all of buf and http afterwards, or that nothing changed |
| `RequestLine.GetExactly` | LinuxC/socket/Webserver/Webserver.c:27 | the parser starts on exactly the requests whose first three bytes are GET |
| `RequestLine.Parts` | LinuxC/socket/Webserver/Webserver.c:28-36 | the path and the version are the maximal runs between the blanks |
| `RequestLine.RoundTrip` | LinuxC/socket/Webserver/Webclient.c:33-40 | the parser recovers the client's input and HTTP/1.1 if and only if the input has no space |
| `RequestLine.Exchange` | LinuxC/socket/Webserver/Webserver.c:27-37 | the C strings the server is left with are that path and HTTP/1.1 |

## Left out

- Memory models weaker than sequential consistency, and the data race in `Tickets` and `RacyCounter` as undefined behaviour: a load and a store are steps of their own, in one order.
- A signal wakes one waiter, of any choice; that it may wake more is covered by the spurious wakeups, which are possible in every state.
- The local `i++` of a producer and the printing after Push and Pop are merged with the last statement of the call.
- Overflow of the producers' counters, of `counter` and of `tickets`: integers are unbounded.
- Sleeping, random numbers, printing, thread creation and its failure, and the destructors.
- The endless loop of the `select` server: its invariant is established by the constructor and kept by each `Round`, for any finite number of rounds.
- `SelectServer.Server.ServeSlot`: `Read` does not return -1 (line 82 would pass it on as a length) and `Write` is complete.
- `main1` and `main2` of server.c, the other socket programs, `Accept`, `Read` and `Write` with their own retries.
- `Stream.LineBuffer.Readline`: one descriptor; the static buffer of wrap.c would mix two descriptors read in turn.
- The copy of wrap.c under LinuxC/socket/UDP, which is the same file.
- `Tokenizer.MiniShellSplit`: only lines in which no word begins with `<` or `>`; the two redirection branches, never entered on them, are not modelled.
- `Tokenizer.ShellSplit`: like the other two splitters, only lines of at most 31 words; on longer ones the source writes beyond `argv`.
- `isspace` and `toupper` outside the C locale, and bytes above 127 where `char` is signed.
- `RequestLine.Exchange`: the request arrives in one read; the web server after line 37 (choice of file and content type, the answer) is not modelled.
- phil_pro.c, whose `if` around its wait does not keep exclusion, and sem_by_mutex, whose check is outside its lock.
- `MsgNodes` has the pointers of the critical sections; `MsgList`, which interleaves them, has addresses in a map instead.
- Pipes, FIFOs, shared memory, signals, exec, the lexer, makefiles and notes: system calls or text.
