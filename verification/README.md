# FreeSWITCH core: verified models

This project models the parts of the FreeSWITCH core whose correctness is not visible from one
function, and proves what they promise over every input and every run. `dafny verify dfyconfig.toml`
checks all of it with Dafny 4.11.

Code that changes things in place is modelled in place: linked lists stay linked lists of objects,
buffers stay arrays, loops stay loops with invariants. Each such method is proved against a function of
values, and the laws are proved about those functions. A protocol between threads (the handle cache, the
session table, the channel) is a state machine in which each public call is one step; the run theorems
quantify over every sequence of calls.

| module | models | main results |
|---|---|---|
| `SqlText`, `SqlExecutor` | the chunked executor, which cuts a batch in place | it submits the greedy packing of whole statements; for every text the exact condition under which it keeps the meaning |
| `SqlLedger`, `SqlWriter` | the writer thread: two queues, one save slot, a growing buffer | between any two turns each statement pushed is in exactly one place, in the order of its queue, and the executed text means exactly the flushed statements; exactly when the thread waits, and on what |
| `HandleCache`, `HandlePool` | the per-thread cache of database handles | counters, nested locks and uniqueness over every run; a thread gets the handle it has; pruning closes exactly the idle handles that are old |
| `MatchSort` | the bubble sort on a list that is cyclic for a while | the result is the one stable sort of the same nodes in the order of the dictionary, properly terminated |
| `Channel`, `SessionLoop`, `SessionTrace`, `SessionRun` | channel states, hangup, handler chain, run loop | hangup is final and happens once; a loop that ends has handled hangup once, then reporting once, if and only if no call skipped a handler, for any calls at any point |
| `SessionTable`, `SessionManager` | look-up, read/write lock, end of a session | a run is safe for those who hold sessions if and only if no session is destroyed while held, which only one without a thread can be; the table is complete if and only if no name clashes once it is cut |
| `Inet`, `InetPton`, `InetPton6`, `InetForms`, `Inet6Print` | IPv4 and IPv6 text parsing | the parsers accept exactly a grammar on fields; the three forms of section 2.2 of RFC 1884; round trips with printers of both kinds of address |
| `ByteBuffer`, `Streams` | the byte buffer and two users of it | the buffer is a FIFO sequence within a capacity bound; packets and file blocks conserve every byte in order |
| `PortAllocator` | random probing with a cool-down | a request ends within five passes for any random numbers and fails exactly when all ports are held; ports held are distinct |
| `FlagString` | the printer and the parser of flag arrays | they undo each other for every 32-bit array |

## What the proofs found

Where a promise is false of the code, the code is modelled as it is and the exact condition is proved.

- On a text of 32768 characters or more the chunker drops everything from the first statement of that length
  on, and always what follows the last terminator. It still reports the success of the last piece it
  submitted (`SqlText.ExecutorKeepsMeaningIff`, `SqlExecutor.ExecuteChunked`).
- A statement that fits no buffer stays in the save slot over any number of turns and stops the writer
  (`SqlWriter.Writer.StayStuck`).
- The writer may come to wait with a statement in the save slot, because it looks at the queues only. Which
  one, if any, is a function of the state in which arrivals end (`SqlWriter.Writer.Drain`,
  `SqlWriter.LeftOf`): the last statement, when it does not fit behind the batch of its moment. Any two
  statements that fit the buffer each alone but not together lead to it (`SqlWriter.WaitsOnSaved`), and any
  later wake-up completes the work (`SqlWriter.Writer.Wake`).
- A wake-up may be lost: a statement pushed after the writer last counted its queues and before it waits
  gives no signal, as `wake_thread` only tries for the mutex that the writer has (lines 491-502 of
  src/switch_core_sqldb.c). The writer then waits on a queued statement: when it waits, its queues hold
  exactly what was pushed in that gap (`SqlWriter.Writer.Step`).
- The first loop of `get_handle` has no `break` and would leak a lock for every further match. Only the
  invariant that a thread has at most one handle of a database makes it right (`HandlePool.Manager.LockHeld`).
- The comment at src/inet_pton.c:149 says that `::` in a full address is ignored. The code replaces all
  that follows it by zeros (`InetForms.FullFormWithGap`).
- The mapping of port slots to ports is sound if and only if the range is not of both parities, starts even
  and does not end before it starts: odd-only mode grants the even port before the range, with both flags
  the last slot is one past the end, and a range that ends before it starts has slots without ports
  (`PortAllocator.SoundPortsIff`).
- The test for duplicate uuids looks up the name as given, but the name is stored cut to 256 characters.
  A longer name can so hide another session (`SessionTable.KeepsListedIff`, `SessionTable.LongNamesClash`).
- A session without a thread is freed by its creator without waiting for those who hold it
  (`SessionTable.HeldIsFreed`). That is the only call that can free a held session
  (`SessionTable.KeepsSafeIff`).
- Setting `CS_REPORTING` or `CS_DESTROY` from outside can skip the hangup or the reporting handlers. Which
  calls do is stated exactly in terms of the state and the running state (`SessionLoop.KeepsOrderIff`), and
  a loop that ends has done all its work if and only if there was no such call (`SessionLoop.RunConcludes`;
  `SessionLoop.HookSkips` and `SessionLoop.HandlerSkips` are runs with one).
- A file write hands on at most one block however much it is given, so the residue is below a block exactly
  if old content and data together are below two blocks (`Streams.BlockFile.Write`). After closing, the file
  holds the data given if and only if no write failed and every block was a whole number of sample frames
  (`Streams.BlockFile.Close`).
- Freeing an odd port frees its even neighbour, if that is held (`PortAllocator.Allocator.Free`).
- A negative index in a flag string writes below the array (`FlagString.ParseArray` lists such writes).
- A release by a thread that does not use the handle breaks the pool, and no other release does
  (`HandlePool.Manager.Release`).

## Model

| member | source | states |
|---|---|---|
| `SqlText.StatementsOfRender` | src/switch_core_sqldb.c:1031-1033 | a batch buffer, read up to each terminator as a database does, is exactly the statements put into it, in order, when none holds a terminator |
| `SqlText.CutIsBoundary` | src/switch_core_sqldb.c:539-548 | every place where the chunker can cut a batch is the end of one of its statements |
| `SqlText.LastCutOfBatch` | src/switch_core_sqldb.c:533-548 | the backward search from chunk_size characters on ends at the largest run of whole statements that fits |
| `SqlText.ChunksOfBatch` | src/switch_core_sqldb.c:532-561 | the pieces submitted are exactly the greedy packing of whole statements into texts below the chunk size |
| `SqlText.GroupsAreRuns` | src/switch_core_sqldb.c:532-561 | that packing covers, in order, the statements before the first one that is too long, and no others |
| `SqlText.SubmittedMeaning` | src/switch_core_sqldb.c:507-565 | what the database executes for a batch of statements without a terminator inside, for every batch and chunk size; every piece is shorter than the chunk size |
| `SqlText.ChunkingPreservesMeaningIff` | src/switch_core_sqldb.c:507-565 | chunking keeps the meaning of a batch if and only if every statement is shorter than the chunk size |
| `SqlText.PartsAreUnique` | src/switch_core_sqldb.c:539-548 | a text is in just one way a batch of statements without a terminator inside and a tail without one |
| `SqlText.PartsMakeText` | src/switch_core_sqldb.c:539-548 | and every text is one |
| `SqlText.TailIsDropped` | src/switch_core_sqldb.c:532-561 | the chunking loop never submits what follows the last terminator |
| `SqlText.AnyTextMeaning` | src/switch_core_sqldb.c:507-565 | what the database executes for any text and chunk size |
| `SqlText.ExecutorKeepsMeaningIff` | src/switch_core_sqldb.c:507-565 | the executor keeps the meaning of a text if and only if it is below the chunk size, or all its statements are and it ends with a terminator |
| `SqlExecutor.FindCut` | src/switch_core_sqldb.c:533-548 | the inner loop finds the last terminator within reach, or none |
| `SqlExecutor.CutPiece` | src/switch_core_sqldb.c:533-551 | the NULs written over the terminator end the piece as a C string and leave the rest of the text intact |
| `SqlExecutor.LoopResultIsAttempted` | src/switch_core_sqldb.c:532-561 | the loop submits the chunks in order up to and including the first that fails, and its status says whether all succeeded |
| `SqlExecutor.Tries` | src/switch_core_sqldb.c:554-557 | executions are tried up to and including the first that fails, and all if none does |
| `SqlExecutor.ExecuteChunked` | src/switch_core_sqldb.c:507-565 | the log and the status of the whole call, for texts below the chunk size too, whichever executions fail |
| `SqlLedger.TakenWasPushed` | src/switch_core_sqldb.c:985-1034 | every statement flushed, batched or in hand was pushed |
| `SqlLedger.ArriveBalanced` | src/switch_core_sqldb.c:1520-1525 | pushes by other threads at any moment keep every statement accounted for in order |
| `SqlLedger.FlushBalanced` | src/switch_core_sqldb.c:1065-1083 | flushing keeps every statement accounted for in order |
| `SqlLedger.FlushedIsExecuted` | src/switch_core_sqldb.c:507-565 | over any number of batches, executing the chunks of each executes exactly the statements flushed, in order |
| `SqlLedger.FlushedIsChunkable` | src/switch_core_sqldb.c:985-1034 | a condition on what is pushed carries over to all that is flushed |
| `SqlLedger.LongIsDropped` | src/switch_core_sqldb.c:578-578 | a statement of 32768 characters or more is never executed |
| `SqlWriter.BatchBuffer.Reserve` | src/switch_core_sqldb.c:1003-1029 | the buffer grows to an exact size, keeping the batch, when the statement does not fit and the limit allows; otherwise its storage stays as it is |
| `SqlWriter.BatchBuffer.Append` | src/switch_core_sqldb.c:995-1035 | the buffer holds the rendered batch plus the statement as a C string; it is refused exactly when it does not fit behind the batch and the buffer may not grow |
| `SqlWriter.Writer.TakeNext` | src/switch_core_sqldb.c:986-994 | the saved statement goes first, then the head of the first queue, then that of the second, and just that one is taken |
| `SqlWriter.RoomBound` | src/switch_core_sqldb.c:1003-1029 | a stored statement has room with its terminator and NUL; when the buffer grows it does so by 10240 beyond them and stays below the limit |
| `SqlWriter.Writer.Store` | src/switch_core_sqldb.c:996-1036 | the statement in hand joins the batch exactly if it fits behind it, and is saved otherwise |
| `SqlWriter.Writer.Flush` | src/switch_core_sqldb.c:1065-1083 | the database log grows by the chunks of exactly this batch, and the buffer is empty again |
| `SqlWriter.Writer.Settle` | src/switch_core_sqldb.c:1043-1102 | the batch is flushed exactly when it is large, nothing is queued or a statement did not fit, so between turns it has at most 20000 statements; the thread waits exactly if the queues are empty when it counts them again |
| `SqlWriter.Writer.Step` | src/switch_core_sqldb.c:985-1104 | a turn keeps every statement in exactly one place in order, with other threads pushing at four points; it saves a statement exactly if that does not fit; the new length, size and count of the buffer; when the thread waits, the batch is empty and the queues hold exactly what was pushed after the last count |
| `SqlWriter.Writer.EachInOnePlace` | src/switch_core_sqldb.c:985-1104 | end to end: each statement pushed is queued, saved, in the buffer or executed, in the order of its queue, and the executed texts mean exactly the executed statements |
| `SqlWriter.Writer.Drain` | src/switch_core_sqldb.c:985-1104 | with nothing more arriving and each statement fit for an empty buffer, the thread comes to wait with queues and batch empty, and the save slot holds exactly what the start state leaves over |
| `SqlWriter.LeftTurn` | src/switch_core_sqldb.c:985-1104 | a quiet turn does not change what will be left over, and the last one saves it |
| `SqlWriter.LeftIsLast` | src/switch_core_sqldb.c:1003-1028 | only the last statement can be left over |
| `SqlWriter.NothingLeft` | src/switch_core_sqldb.c:1003-1028 | nothing is left over when all that is pending fits the buffer together |
| `SqlWriter.Writer.Wake` | src/switch_core_sqldb.c:986-991 | the first turn after a wake-up flushes a saved statement that fits an empty buffer |
| `SqlWriter.Writer.StepOnSaved` | src/switch_core_sqldb.c:986-1028 | a saved statement goes through on the next turn exactly if it fits an empty buffer |
| `SqlWriter.Writer.StayStuck` | src/switch_core_sqldb.c:1003-1028 | a saved statement that fits no buffer stays saved over any number of turns; nothing is taken, flushed or executed |
| `SqlWriter.WaitsOnSaved` | src/switch_core_sqldb.c:1089-1095 | for any two statements that fit the buffer each alone but not together, three turns of the loop after which the thread waits with the second in the save slot |
| `HandleCache.ChosenIff` | src/switch_core_sqldb.c:146-161 | a request is given the handle the thread has of the database, else the first idle one of it, and none exactly if there is neither |
| `HandleCache.ChosenIsFree` | src/switch_core_sqldb.c:146-161 | the handle chosen is of the right database and is not in use by another thread, so the try-lock succeeds |
| `HandleCache.CallKeepsSound` | src/switch_core_sqldb.c:92-175 | every step of any thread keeps lock depth equal to use count, one owner per handle in use, at most one handle per database and thread, and that a thread about to add a handle has none |
| `HandleCache.GainIsGained` | src/switch_core_sqldb.c:92-175 | a step changes the uses of a database by a thread by exactly its own request or release, and nobody else's |
| `HandleCache.RunsAreSound` | src/switch_core_sqldb.c:92-308 | over every run of steps, also with other threads between the look-up and the adding of a request: the invariant, and uses equal to requests less releases for each database and thread |
| `HandleCache.RequestedIsHeld` | src/switch_core_sqldb.c:146-170 | over every run, a thread has a handle of a database exactly while its balance is positive; it has one only, locked that many times, and gets that one again |
| `HandleCache.LeavesNone` | src/switch_core_sqldb.c:376-428 | no step of another thread gives a handle of the database to a thread between its look-up in vain and its adding of a new one |
| `HandleCache.WaitingIff` | src/switch_core_sqldb.c:376-428 | a thread is about to make a handle exactly from a look-up in vain until it adds one or gives up |
| `HandleCache.PruneSpares` | src/switch_core_sqldb.c:229-238 | pruning never closes a handle in use or one used less than 120 seconds ago and not marked |
| `HandleCache.PruneIff` | src/switch_core_sqldb.c:229-238 | and closes every other |
| `HandleCache.ReleasedIsSpared` | src/switch_core_sqldb.c:294-294 | a handle released less than 120 seconds ago is not closed |
| `HandleCache.FlushLeavesUsed` | src/switch_core_sqldb.c:284-287 | flushing all handles leaves only handles in use |
| `HandlePool.Manager.LockHeld` | src/switch_core_sqldb.c:146-151 | the loop without a break locks exactly the one handle the thread has, or none |
| `HandlePool.Manager.LockIdle` | src/switch_core_sqldb.c:153-161 | the second loop locks the first idle handle of the database, or none |
| `HandlePool.Manager.GetHandle` | src/switch_core_sqldb.c:135-175 | the handle the thread has, else the first idle one, else none; nothing else in the pool changes |
| `HandlePool.Manager.AddHandle` | src/switch_core_sqldb.c:92-113 | a new handle goes to the front, used once and locked once; the counters still count |
| `HandlePool.Manager.LookUp` | src/switch_core_sqldb.c:376-376 | refines the look-up of the state machine; a thread that gets no handle is then about to make one |
| `HandlePool.Manager.Add` | src/switch_core_sqldb.c:420-428 | refines the adding of a new handle after a look-up in vain, whatever other threads did in between |
| `HandlePool.Manager.Request` | src/switch_core_sqldb.c:317-437 | both halves together: the handle the thread has or the first idle one, and a new handle only if there is none |
| `HandlePool.Manager.Release` | src/switch_core_sqldb.c:290-308 | for any thread: the new state of handle and counter; the pool stays right exactly if the thread uses the handle, and the call is then the release of the state machine |
| `HandleCache.ReleaseSoundIff` | src/switch_core_sqldb.c:290-308 | a release keeps the invariant and the count of uses if and only if it is by the thread that uses the handle |
| `HandlePool.Manager.DelHandle` | src/switch_core_sqldb.c:115-133 | the handle leaves the list, the others stay in order; a handle not in the list changes nothing |
| `HandlePool.Manager.SqlClose` | src/switch_core_sqldb.c:220-276 | restarting from the top after each closing ends; a handle is left exactly if it is in use, or was used less than 120 seconds ago and is not marked; those left are in order, with total_used_handles unchanged |
| `MatchSort.CmpIsDictionary` | src/switch_console.c:1679-1679 | the sign of the comparison is the order of the dictionary: where the texts first differ, one ends or has the smaller character |
| `MatchSort.StableSortIsUnique` | src/switch_console.c:1660-1714 | there is only one stable sort of a list, so the result is determined |
| `MatchSort.OrderedStep` | src/switch_console.c:1679-1704 | comparing and exchanging two neighbours keeps a stable rearrangement and carries the largest value along |
| `MatchSort.Matches.PushMatch` | src/switch_console.c:1717-1739 | the new value is appended, head, end, count and terminator stay right |
| `MatchSort.Matches.Visit` | src/switch_console.c:1679-1704 | the pointer rewriting exchanges exactly the two neighbours, and the four cursors move on by one |
| `MatchSort.Matches.Pass` | src/switch_console.c:1671-1706 | after the pass one more node at the end is final, although the last node may point back into the list |
| `MatchSort.Matches.SortMatches` | src/switch_console.c:1660-1714 | the same nodes, each before the next in the dictionary or equal to it and in their first order, with head, end and NULL terminator right |
| `Channel.HangupIsFinal` | src/switch_channel.c:1885-2104 | after hangup no sequence of calls lowers the state or changes the cause |
| `Channel.StaysConsistent` | src/switch_channel.c:2764-2822 | over all sequences of calls a recorded cause or OCF_HANGUP implies a state of at least CS_HANGUP |
| `Channel.OnlyFirstHangup` | src/switch_channel.c:2771-2781 | after one hangup call, however the channel is used in between, another one changes nothing |
| `Channel.FirstHangupFixesCause` | src/switch_channel.c:2785-2801 | the first hangup call on a channel that is up fixes the cause for every later sequence of calls |
| `Channel.SetStateBringsDown` | src/switch_channel.c:1925-2078 | setting a state brings a channel down from CS_NEW or CS_RESET only; else it takes a hangup call |
| `Channel.AllowedIff` | src/switch_channel.c:1925-2078 | the transition table as a law: anywhere from CS_NEW and CS_RESET, only further down from a state that is down, and otherwise to every other state that is up but CS_NEW, and to CS_INIT only from hibernation |
| `Channel.MoveUpIff` | src/switch_channel.c:2080-2099 | on a channel that is up a state is taken exactly if it is the same or allowed, and else the process ends; a hangup without a cause gets cause 16 |
| `SessionLoop.InvokedIff` | src/switch_core_state_machine.c:274-300 | an entry of a handler list is invoked exactly if it has a function and nobody before it refused |
| `SessionTrace.InvokedHandlersIff` | src/switch_core_state_machine.c:272-300 | a channel or core handler is invoked exactly if the driver accepts, the tables are used, it has a function and nobody before it in its own list refused |
| `SessionTrace.InvokedInPlace` | src/switch_core_state_machine.c:272-303 | the driver first, then the channel's handlers, then the core's, each in table order, and the standard action last |
| `SessionTrace.CallsAreOfTheInvoked` | src/switch_core_state_machine.c:272-303 | the calls a run of the chain makes are those of the functions invoked, in their order |
| `SessionTrace.StandardIff` | src/switch_core_state_machine.c:301-303 | the standard action runs exactly if driver and all handlers accept and the calls of the functions invoked have not moved the state |
| `SessionTrace.OrdinaryStateRuns` | src/switch_core_state_machine.c:353-441 | the chain of an ordinary state is run exactly when the loop enters the state |
| `SessionLoop.KeepsOrderIff` | src/switch_core_state_machine.c:344-401 | a call, also one whose early hangup runs handlers that set states, keeps all handlers due or done, hangup before reporting, if and only if it does not set a state past handlers that neither ran nor are running |
| `SessionLoop.DoTracked` | src/switch_core_state_machine.c:344-401 | over any sequence of calls, in order exactly if none skipped a handler; a channel that is down keeps its cause, flags and log |
| `SessionLoop.TurnTracked` | src/switch_core_state_machine.c:344-473 | a turn with any calls at any point ends the loop or leads back to its head, and moves a channel that is down on |
| `SessionLoop.RunConcludes` | src/switch_core_state_machine.c:309-477 | every run that comes to CS_DESTROY has handled the hangup once, then reported once, and no more, if and only if no call in it skipped a handler |
| `SessionLoop.RunRecorded` | src/switch_core_state_machine.c:550-694 | over every run the log agrees with the chains of handlers that were run |
| `SessionLoop.RunInvokesEachOnce` | src/switch_core_state_machine.c:309-477 | a run from the start of a session that ends without a skip has run the chain of hangup handlers once, early or in the loop, after that the chain of reporting handlers once, and neither at another time |
| `SessionLoop.DownEnds` | src/switch_core_state_machine.c:344-401 | a channel that is down is at CS_DESTROY after at most CS_DESTROY minus state turns, with the same cause |
| `SessionLoop.TameRunConcludes` | src/switch_core_state_machine.c:309-477 | when calls only hang up or set states up to CS_HANGUP, nothing is skipped, and a channel that is down takes exactly CS_DESTROY minus state turns |
| `SessionLoop.NewCountsDown` | src/switch_core_state_machine.c:447-456 | an undisturbed wait in CS_NEW counts down and ends in a hangup with the cause for it |
| `SessionLoop.NewTimesOut` | src/switch_core_state_machine.c:447-456 | a session that nobody sets going is hung up with cause 81 after exactly 60000 turns |
| `SessionLoop.HookSkips` | src/switch_core_state_machine.c:362-376 | a hook that sets CS_REPORTING or CS_DESTROY on a new channel: however the run goes on, it cannot end with its work done |
| `SessionLoop.BlockedSkips` | src/switch_core_state_machine.c:346-351 | the same for a call while the state is blocked |
| `SessionLoop.OthersSkip` | src/switch_core_state_machine.c:445-445 | the same for a call after the state was run |
| `SessionLoop.IdleSkips` | src/switch_core_state_machine.c:448-471 | the same for a call while events are parsed |
| `SessionLoop.ApiSkips` | src/switch_core_state_machine.c:604-611 | an API hook after the hangup handlers that sets CS_DESTROY: nothing is reported |
| `SessionLoop.HandlerSkips` | src/switch_core_state_machine.c:390-395 | a hangup handler that sets CS_DESTROY: the loop ends with the hangup handled and nothing reported |
| `SessionRun.Session.SetChannelState` | src/switch_channel.c:1885-2104 | refines the transition of the state machine, with the crash on an invalid change |
| `SessionRun.Session.HangupChannel` | src/switch_channel.c:2764-2822 | refines the hangup step: only the first call acts, and when early hangup is enabled it runs the hangup handlers, with the states these set |
| `SessionRun.Session.RunList` | src/switch_core_state_machine.c:274-286 | exactly the handlers up to the first that refuses are invoked, in order, with the effect of their calls |
| `SessionRun.Session.RunChain` | src/switch_core_state_machine.c:269-307 | the driver is invoked, then each list up to its first refusal, a channel handler's refusal not stopping the core handlers, then the standard action exactly when driver and all handlers accept and the state has not moved |
| `SessionRun.Session.HandleHangup` | src/switch_core_state_machine.c:550-615 | exactly the functions of the hangup chain are invoked if they have not run before, early or in the loop, and none otherwise |
| `SessionRun.Session.HandleReporting` | src/switch_core_state_machine.c:617-694 | exactly the functions of the reporting chain are invoked if CF_REPORTING is not set, and none otherwise; it is set before they run |
| `SessionRun.Session.TakeTurn` | src/switch_core_state_machine.c:344-473 | one turn with calls at every point refines the turn on values, and says when the loop is left |
| `SessionRun.Session.Run` | src/switch_core_state_machine.c:309-477 | for any turns: a run that ends is at CS_DESTROY and has handled hangup once, then reporting once, exactly if no call skipped a handler; once down it takes at most CS_DESTROY minus state turns |
| `SessionTable.KeepsTabled` | src/switch_core_session.c:1206-1211 | every call keeps: keys are uuids of sessions not freed, and the count is that of sessions not freed |
| `SessionTable.KeepsSafeIff` | src/switch_core_session.c:1351-1369 | a call keeps every session being ended or freed without holders if and only if it does not destroy a held one, which can only be one without a thread |
| `SessionTable.SafeIffGuarded` | src/switch_core_session.c:1351-1369 | over every run: nobody ever holds a session being ended or freed if and only if no call destroys a held session |
| `SessionTable.KeepsListedIff` | src/switch_core_session.c:1425-1458 | every session stays found under its uuid if and only if no name, once cut, is another session's |
| `SessionTable.LongNamesClash` | src/switch_core_session.c:1741-1744 | for every name that is too long, two requests leave a count of two and a table of one |
| `SessionTable.ListedCount` | src/switch_core_session.c:1839-1843 | a complete table has session_count entries |
| `SessionTable.RunsAreTabled` | src/switch_core_session.c:108-134 | over every run the table and the count are right, and the read locks each thread has on each session are those it was given less those it gave back |
| `SessionTable.HeldIsAlive` | src/switch_core_session.c:1351-1369 | over every run that destroys no held session, a session that a thread holds is not freed, nor write-locked or marked for its end |
| `SessionTable.HeldIsFreed` | src/switch_core_session.c:1188-1211 | for every uuid and thread, a run in which a session that was located and is held is freed before its thread was launched |
| `SessionTable.LocatedIsAlive` | src/switch_core_session.c:108-134 | over every run, a look-up gives a session with that uuid that is not marked destroyed |
| `SessionTable.CountIsTableSize` | src/switch_core_session.c:1206-1211 | over every run without a clash, session_count is the size of the table and every session is found |
| `SessionTable.OrderlyIsClashless` | src/switch_core_session.c:1741-1744 | over every run with uuids of at most 256 characters and new generated ones the tests for duplicates prevent every clash |
| `SessionTable.OrderlyRunsAreListed` | src/switch_core_session.c:1839-1843 | over every such run each session not freed is found under its uuid, and session_count is the size of the table |
| `SessionTable.RequestIff` | src/switch_core_session.c:1741-1843 | a request is refused exactly for a uuid that is taken or by the limits; otherwise the new session is found under its uuid |
| `SessionTable.RenameIff` | src/switch_core_session.c:1433-1458 | a renaming is refused exactly for a uuid that is taken; otherwise the session is found under the new one and not under the old |
| `SessionTable.EndOfLife` | src/switch_core_session.c:1351-1369 | a session that nobody holds can be launched and ended by its thread; no look-up gives it from the write lock on, and in the end it is freed and not in the table |
| `SessionManager.Session.ReadLock` | src/switch_core_rwlock.c:82-114 | a read lock is given exactly if the session is not destroyed, not going down and not write-locked; pinging a session that goes down leaves no lock behind |
| `SessionManager.Manager.Request` | src/switch_core_session.c:1728-1846 | refused exactly for a uuid in the table or by the limits, and then nothing changes; otherwise the session is in the table and counted |
| `SessionManager.Manager.SetUuid` | src/switch_core_session.c:1425-1465 | refused exactly for a uuid in the table, and then nothing changes; otherwise the old key goes and the new one comes |
| `SessionManager.Manager.Locate` | src/switch_core_session.c:108-134 | returns a session that is not destroyed and has this uuid, read-locked for the caller, exactly when there is one to lock |
| `SessionManager.Manager.Unlock` | src/switch_core_rwlock.c:157-168 | gives back one read lock of the caller |
| `SessionManager.Manager.Launch` | src/switch_core_session.c:1373-1411 | the thread is launched once |
| `SessionManager.Manager.TakeWriteLock` | src/switch_core_session.c:1351-1351 | the session's thread gets the write lock only when there are no readers |
| `SessionManager.Manager.Destroy` | src/switch_core_session.c:1188-1211 | the session leaves the table and the count, and is freed, whether or not it ever had a thread |
| `InetPton.ReadQuad` | src/inet_pton.c:108-135 | the character loop accepts exactly four decimal fields of at most 255, and has their values |
| `InetPton.InetPton4` | src/inet_pton.c:102-139 | accepts exactly the dotted quads, and writes the address only then |
| `InetForms.Print4RoundTrip` | src/inet_pton.c:102-139 | every IPv4 address is read back from its canonical dotted form |
| `InetForms.DotsAreApart` | src/inet_pton.c:126-132 | a dotted quad has no dot at its start or end and no two in a row |
| `InetPton6.ReadBody` | src/inet_pton.c:170-214 | the character loop reads exactly the grammar on fields, stopping at the first error |
| `InetPton6.ShiftToEnd` | src/inet_pton.c:220-227 | the overlapping shift moves the bytes behind the gap to the end with zeros between, and in a full address it clears them |
| `InetPton6.InetPton6` | src/inet_pton.c:155-234 | accepts exactly the texts of the grammar, yields their address, and leaves dst untouched otherwise |
| `InetForms.FullForm` | src/inet_pton.c:155-234 | groups, perhaps ending in a dotted quad, that make sixteen bytes stand for themselves |
| `InetForms.CompressedForm` | src/inet_pton.c:215-228 | for all left and right parts with room between, `L::R` is L, zeros, R; a dotted quad stands for two groups |
| `InetForms.FullFormWithGap` | src/inet_pton.c:223-226 | `::` in a full address replaces what follows by zeros, so it is ignored if and only if that was zero |
| `InetForms.ScanIff` | src/inet_pton.c:186-201 | what may stand before the last colon: at most eight groups and at most one empty field for the double colon |
| `InetForms.GroupCount` | src/inet_pton.c:229-230 | without a double colon it takes exactly eight groups |
| `InetForms.TrailingColon` | src/inet_pton.c:186-209 | a colon after eight groups is accepted and ignored |
| `InetForms.PaddedFields` | src/inet_pton.c:178-185 | octets and groups may have any number of zeros in front |
| `Inet6Print.HexIff` | src/inet_pton.c:157-157 | the digits are exactly 0-9, a-f and A-F |
| `Inet6Print.Print6RoundTrip` | src/inet_pton.c:155-234 | every IPv6 address, printed with four hexadecimal digits a group, high byte first, in lower or upper case, is read back |
| `ByteBuffer.Buffer.Read` | src/switch_buffer.c:189-207 | the oldest bytes, up to the number asked for, are returned and removed |
| `ByteBuffer.Buffer.Peek` | src/switch_buffer.c:209-225 | the same bytes, and nothing is removed |
| `ByteBuffer.Buffer.Toss` | src/switch_buffer.c:148-165 | the oldest bytes are removed |
| `ByteBuffer.Buffer.Compact` | src/switch_buffer.c:255-259 | moving the content to the start keeps it, and keeps head plus used equal to actually_used within the storage |
| `ByteBuffer.Buffer.Write` | src/switch_buffer.c:243-294 | appends exactly if there is room or growing is allowed, through compaction and growth; a refused write leaves the content; capacity stays within its bound |
| `ByteBuffer.Buffer.Zero` | src/switch_buffer.c:296-303 | the buffer is empty |
| `ByteBuffer.Buffer.Zwrite` | src/switch_buffer.c:305-315 | a refused write empties the buffer and then replaces the content, or is refused again and leaves nothing |
| `ByteBuffer.Buffer.SlideWrite` | src/switch_buffer.c:317-327 | a refused write drops as many of the oldest bytes as it brings and is then accepted or not, in all cases; a fixed buffer takes a write exactly if it is no larger than itself |
| `ByteBuffer.Buffer.ReadLoop` | src/switch_buffer.c:172-187 | at the end of the content reading starts over while loops are left |
| `ByteBuffer.Buffer.DrainLoop` | src/switch_buffer.c:172-187 | reading on with any size gives the content exactly as many times as loops were set |
| `Streams.PacketWriter.DrainPackets` | src/switch_core_io.c:1110-1229 | full packets leave in order until less than one is left, a write fails or the channel is down; none leaves once it is seen down |
| `Streams.PacketWriter.WriteFrame` | src/switch_core_io.c:1089-1231 | over any run of frames the packets followed by the residue are the input, each packet is of full length, and the residue is below one packet after each call that succeeds on a channel that is up |
| `Streams.FramesOfBytes` | src/switch_core_file.c:383-383 | the bytes of n samples per channel count as n sample frames |
| `Streams.KeptAll` | src/switch_core_file.c:388-393 | the divisions by sample size and channels write a block whole if and only if it is a whole number of sample frames |
| `Streams.StoredAllIff` | src/switch_core_file.c:387-396 | blocks end up in the file whole if and only if no write failed and each is a whole number of sample frames |
| `Streams.BlockFile.Write` | src/switch_core_file.c:374-399 | the blocks handed on followed by the buffer are all data given, and the file holds the whole frames of the blocks that did not fail; at most one block moves, so the residue is below one exactly if content and data were below two |
| `Streams.BlockFile.Close` | src/switch_core_file.c:537-557 | closing hands on the rest in order until a write fails; the file then holds all data given if and only if every block was written whole |
| `PortAllocator.EvenPorts` | src/switch_core_port_allocator.c:149-150 | from an even start the slots stand for the even ports of the range, and freeing computes the slot back |
| `PortAllocator.EveryPortHasSlot` | src/switch_core_port_allocator.c:89-93 | every even port of a range that starts even has a slot |
| `PortAllocator.RoundedRange` | src/switch_core_port_allocator.c:71-87 | with one parity the range starts and ends at the nearest ports of that parity inside the range asked for; otherwise it is as asked for |
| `PortAllocator.BelowStart` | src/switch_core_port_allocator.c:177-181 | the port just before the range stands for the first slot |
| `PortAllocator.OffsetWalks` | src/switch_core_port_allocator.c:136-138 | the walk goes up from its start, around the end, and meets its start last |
| `PortAllocator.SoundPortsIff` | src/switch_core_port_allocator.c:89-93 | slots have distinct ports within the range if and only if the range is not of both parities, starts even and does not end before it starts |
| `PortAllocator.Allocator.constructor` | src/switch_core_port_allocator.c:50-111 | the rounded range, the number of slots with its wrap-around, and that even-only mode is sound |
| `PortAllocator.Allocator.Probe` | src/switch_core_port_allocator.c:131-139 | the walk with wrap-around stops at the first free slot or after one round, and raises exactly the cooling slots it steps over |
| `PortAllocator.Allocator.Request` | src/switch_core_port_allocator.c:113-170 | for any random numbers it ends within five passes; it fails exactly when all slots are held; a port freed before has been stepped over four times; in even-only mode the port is even, in the range and not held by anyone |
| `PortAllocator.Allocator.Free` | src/switch_core_port_allocator.c:172-192 | frees an even port exactly if it is held, and takes an odd one for its even neighbour; the port's cool-down starts; a double free changes nothing |
| `FlagString.ParseArray` | src/switch_core_session.c:1476-1512 | for every text, the pieces between semicolons assign in their order; pieces without an equals sign or beyond the array do nothing, and writes below it are listed |
| `FlagString.StraysIff` | src/switch_core_session.c:1502-1504 | there are writes below the array if and only if some piece has a negative index |
| `FlagString.LastWins` | src/switch_core_session.c:1485-1509 | a slot holds the value of the last piece that writes to it, or what it held before |
| `FlagString.AtoiReads` | src/switch_core_session.c:1499-1500 | white space is skipped, a sign may follow, and the number ends at the first character that is no digit |
| `FlagString.GetFlagString` | src/switch_channel.c:1456-1480 | the pieces of the text are exactly the flags that are set, in order, without a last semicolon |
| `FlagString.ItemIs` | src/switch_channel.c:1467-1467 | the text of a flag is its index, an equals sign and its value, negative from 2^31 on |
| `FlagString.AtoiOfIntText` | src/switch_core_session.c:1499-1500 | reading back a printed int gives the int |
| `FlagString.PiecesRestore` | src/switch_channel.c:1464-1469 | the pieces of the text assign the whole array back |
| `FlagString.RoundTrip` | src/switch_core_session.c:1476-1512 | printing and parsing into a zeroed array gives back every array of 32-bit values, those printed as negative numbers too |

## Left out

- SQL thread: start-up with its retries, shutdown (it drops the batch and the queues), the NULL statement that ends the loop, pausing of calls on a long queue, and the yields.
- SQL transactions: the BEGIN and COMMIT around a batch and their retries; a batch is executed once, as the writer asks for one try.
- SQL text: what a database does with a statement; only the splitting at terminators is given meaning, and an empty statement has none.
- Handle cache: the wait for `max_db_handles`, which is no strict cap; `sql_close(0)` at shutdown; the connections themselves; hash collisions, and a thread whose hash is the value 1 that marks a released handle; the wrap-around of the counters.
- Sessions: interleavings finer than a call; a failing thread creation; waking the session thread, which uses a try-lock and has no guarantee.
- Session run: events, media bugs and timestamps; which handler functions an early hangup invokes (the states they set are modelled).
- `InetPton.ReadQuad`: leaves out the test for a fifth octet at line 122 of src/inet_pton.c, which the test at line 127 makes unreachable.
- Buffer: mutexes, `switch_buffer_freespace`, peeking without a copy, allocation failure, and overflow of sizes.
- Write path: encoding, resampling and generated silence (packets are the raw bytes); the repacketising of the read side, which has no bound on its residue.
- `PortAllocator.Allocator.constructor`: excludes, with both flags, a range that ends three or four before its start, for which the size of the allocation wraps around to nothing.
- `PortAllocator.Allocator.Free`: excludes a port outside the track, which the code does not check for.
- `FlagString.ParseArray`: numbers beyond the range of a C long, for which atoi is undefined, are taken modulo 2^32.
- The rest of the repository: modules, endpoints, event system, codecs, timers, limits, XML and the user interface.
