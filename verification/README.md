# Protocols and in-place tables of the system programming examples

The repository is a collection of C programs about POSIX and Linux system calls. Some of them hold
real state machines and data structures that are changed in place. This project models those and
proves, for any capacity, any number of threads, children, clients and bytes, and any behaviour of
the kernel within its stated rules, what they keep.

The kernel and the thread library are environment: the numbers that `accept` and `timerfd_create`
return, what `recv` and `read` deliver, the order in which threads run and writes complete, spurious
wake-ups, cancellations, kills and merged signals are all left open. Where the rules of the
environment matter they are those of POSIX.1-2008, System Interfaces, section 2.4.2 (queued signals)
and section 2.9.5 (thread cancellation).

| files | program | what is proved |
|---|---|---|
| `Ring`, `WorkQueue` | `Chapter08/cond_var.c`, `Chapter10/cond_var_rts.c` | the ring with its lazily wrapped indices is a FIFO of bounded length |
| `QueueProtocol` | `Chapter08/cond_var.c` | every interleaving of one producer and many consumers is a run of an atomic FIFO; no wake-up is lost; a pop stays reachable; the queue drains |
| `NotifyProtocol` | `Chapter10/cond_var_rts.c` | every byte and every notification is accounted for |
| `SessionTable`, `EventLoop`, `EpollServer` | `Chapter11/epoll_timerfd.c` | the session table is a two-way map; table, open descriptors, epoll interest and armed timers agree after any batches, and no run fails |
| `Timeouts` | `Chapter11/epoll_timerfd.c` | exactly which sessions the timeout branch closes, and what it does not promise |
| `FileWrites`, `ListioMachine`, `ListioCopy` | `Chapter10/aio_listio.c` | batched writes in any order of completion make a plain copy; no buffer is reused in flight; the copy ends, exactly unless a list is refused |
| `PollTable` | `Chapter07/io_poll.c` | each ready client is served exactly once per round although the table shrinks under the loop |
| `SelectTable` | `Chapter07/io_select.c` | which ready clients a round passes over, and that none starves |
| `SemUndo` | `Chapter05/sysv_sem_zwait.c`, `Chapter05/sysv_sem.c` | no permit is lost or invented, whoever is killed where; when the zero-waiter can pass and the parent finish |
| `CancelMutex` | `Chapter08/cleanup_mutex.c` | the mutex is always released by its owner, whoever is cancelled when; every run is finite, and the main thread returns exactly if no cancellation took effect inside a message |
| `ChildPool` | `Chapter11/io_signalfd_chld.c` | how many children there are, and exactly with which kinds of change one can be forgotten |

`Behaviors` (finite runs of a step relation), `Sums`, `SwapDelete` and `Serving` are shared.

A program that works in place on one object is modelled as a class (`WorkQueue`, `SessionTable`,
`EpollServer`, `PollTable`, `SelectTable`) or a method with loops (`ListioCopy.Copy`), whose contracts
tie it to functions on values. A program of several threads or processes is a step relation; its
theorems are about all its finite runs. Bytes, counters and times are unbounded integers.

Five places in the programs shape the statements:

- `Chapter08/cleanup_mutex.c:9-14` locks stdout around the output calls of a message, and these may be
  cancellation points. The cleanup handler gives back the mutex, but nothing gives back stdout: a
  thread cancelled inside a message ends with it, the next one takes the mutex and blocks in
  `flockfile`, and the joins do not return. `RunsEnd` states the exact condition, and
  `MessageCutDeadlocks` gives such a run, in which only the program's own cancellation occurs.
- `Chapter07/io_poll.c:161` marks slot `cnt_fd_socket` as free, one behind the last entry, where
  `Chapter07/io_select.c:152` marks the last one. The code is modelled as it is: a deletion from a
  full table writes behind the array, and the contracts say exactly when that happens.
- `ADD_EV` (`Chapter11/epoll_timerfd.c:28`) ends the program only on -1, while `add_ev` returns a
  positive error number when there is no memory for a session or its timer cannot be created or set.
  `AcceptExact` shows that the agreement of table and kernel survives an accept exactly if none of this
  happens, and `UntimedSocketFails` what follows otherwise.
- The drain of `Chapter11/io_signalfd_chld.c` ends at the first report that is neither an end nor a
  stop. `DrainCompleteExactly` and `EndsReapedExactly` say with which kinds of change that can leave
  reports or ended children behind, and `EarlyEndForgets` gives the runs.
- `Chapter10/aio_listio.c:76-80` ignores the result of `lio_listio`. `CopyCorrect` and `CopyEnds` say what
  holds when a list is refused.

## Model

| member | source | states |
|---|---|---|
| QueueProtocol.StepRefinesFifo | Chapter08/cond_var.c:95-185 | Each step of any thread, or a spurious wake-up, keeps the invariant and is one step of an atomic bounded FIFO or none |
| QueueProtocol.RunRefinesFifo | Chapter08/cond_var.c:95-185 | Every interleaving of the producer and any number of consumers, seen from outside the critical sections, is a run of the FIFO that starts empty |
| QueueProtocol.FifoOrder | Chapter08/cond_var.c:95-185 | Every chunk read is pushed once and in order; with the mutex free, the values popped followed by the ring are the accepted prefixes of the chunks |
| QueueProtocol.ReleasingStep | Chapter08/cond_var.c:127-153 | A whole push takes effect at its unlock, with exactly as much of the chunk as fits into what the consumers left free |
| QueueProtocol.PushingStep | Chapter08/cond_var.c:133-148 | The iterations of a push under way are invisible in the FIFO |
| QueueProtocol.PopStep | Chapter08/cond_var.c:159-172 | The taking branch of a pop is a pop of the oldest value of the FIFO |
| QueueProtocol.NoLostWakeup | Chapter08/cond_var.c:103-106 | With a value queued, a consumer waits on the condition variable only while the producer is between taking the mutex and finishing its broadcast |
| QueueProtocol.CloserToPop | Chapter08/cond_var.c:95-185 | With a value queued, some enabled step pops or comes closer to a pop |
| QueueProtocol.PopReachable | Chapter08/cond_var.c:95-185 | From every state with a value queued, a finite run leads to the next pop |
| QueueProtocol.ProducerAlone | Chapter08/cond_var.c:127-153 | A producer that finds the mutex free gets through its push by its own steps, whatever is queued: in the FIFO this is the push of its chunk, and it reads again |
| QueueProtocol.PushReachable | Chapter08/cond_var.c:131-150 | From every state in which the producer wants the mutex, a finite run leads to the state where exactly its chunk has been pushed |
| QueueProtocol.EveryChunkPushed | Chapter08/cond_var.c:95-107 | Every non-empty chunk can be read and then pushed |
| QueueProtocol.GoesOnExactly | Chapter08/cond_var.c:131-178 | Which threads can step: all but a reading producer, a waiting consumer and those that want a taken mutex |
| QueueProtocol.AnyoneNext | Chapter08/cond_var.c:157-175 | Any consumer that wants the free mutex can be the one to get it, and any waiting one can wake up spuriously |
| QueueProtocol.ConsumerStepDecreases | Chapter08/cond_var.c:112-125 | Each consumer step without a spurious wake-up lowers the measure and keeps the invariant |
| QueueProtocol.StuckExactlyWhenQuiet | Chapter08/cond_var.c:155-185 | With the producer in read, no consumer can step exactly if the queue is empty, the mutex free and all consumers wait |
| QueueProtocol.ConsumersComeToRest | Chapter08/cond_var.c:112-125 | With the producer in read, every run of the consumers is finite, and one that cannot go on is quiet |
| QueueProtocol.AnyStart | Chapter08/cond_var.c:56-74 | A run can start with any capacity and any number of consumers, so the theorems about runs are about those |
| Rings.FirstFreeIsCursor | Chapter08/cond_var.c:133 | The start position of a push is that of the first free slot, also when the index rests at the capacity |
| Rings.PutAppends | Chapter08/cond_var.c:133-147 | One iteration of the push loop appends the value and leaves a correct cursor, wherever index and cursor rest |
| Rings.TakeRemovesOldest | Chapter08/cond_var.c:161-167 | The taking branch removes and returns the oldest value |
| WorkQueues.WorkQueue.constructor | Chapter08/cond_var.c:27-33 | A new queue is empty |
| WorkQueues.WorkQueue.Push | Chapter08/cond_var.c:127-153 | Appends exactly the first min(cnt, free slots) values, returns that number and changes nothing else |
| WorkQueues.WorkQueue.TryPop | Chapter08/cond_var.c:159-172 | Takes the oldest value exactly if there is one, and changes nothing otherwise |
| NotifyProtocol.NotificationsConserved | Chapter10/cond_var_rts.c:96-240 | In every reachable state the bytes read are, value by value, those dropped, queued, in hand and processed, and each worker's jobs are its signals received and pending, plus one between job and signal |
| NotifyProtocol.ThreadKeepsBytes | Chapter10/cond_var_rts.c:96-154 | Each step of a thread keeps every byte accounted for |
| NotifyProtocol.ProducerKeepsByte | Chapter10/cond_var_rts.c:96-122 | A push moves each value from the producer's hand into the ring, or drops it when the ring is full |
| NotifyProtocol.ConsumerKeepsByte | Chapter10/cond_var_rts.c:124-161 | A worker moves each value from the ring to its hand and from there to the processed ones |
| NotifyProtocol.ThreadKeepsSignals | Chapter10/cond_var_rts.c:201-209 | A worker's step keeps jobs and signals in balance for every worker |
| NotifyProtocol.ReceiveKeepsSignals | Chapter10/cond_var_rts.c:226-237 | A received signal is charged to the worker that sent it |
| NotifyProtocol.SignalsInOrder | Chapter10/cond_var_rts.c:206-234 | Along every run the signals received, followed by those pending, are those sent, in order |
| NotifyProtocol.JobsAreValues | Chapter10/cond_var_rts.c:201-204 | Along every run the jobs of all workers are as many as the values processed |
| NotifyProtocol.PendingIsReceived | Chapter10/cond_var_rts.c:226-234 | A pending signal can be received at any time, the oldest first, on its sender's account |
| NotifyProtocol.ThreadsUnhindered | Chapter10/cond_var_rts.c:194-210 | Signals keep no producer or worker from stepping |
| SessionTables.FindSocket | Chapter11/epoll_timerfd.c:304-323 | The index found is the first row with that socket, or the number of rows if there is none |
| SessionTables.FindTimer | Chapter11/epoll_timerfd.c:325-344 | The index found is the first row with that timer, or the number of rows if there is none |
| SessionTables.LookupsAreInverse | Chapter11/epoll_timerfd.c:304-344 | Both searches succeed exactly on members of the two-way map, find its values and are inverse to each other |
| SessionTables.AppendRefinesMap | Chapter11/epoll_timerfd.c:251-256 | A new row adds exactly its pair to the two-way map |
| SessionTables.RemoveRefinesMap | Chapter11/epoll_timerfd.c:282-299 | Swap-delete removes exactly that row's pair from the two-way map |
| SessionTables.SessionTable.constructor | Chapter11/epoll_timerfd.c:35-40 | The table starts empty with nothing allocated |
| SessionTables.SessionTable.NewTimerfd | Chapter11/epoll_timerfd.c:231-259 | Appends the row or reports the failure; the allocation stays a multiple of 16 and below the peak plus 16, exactly unless growing at the peak is followed by a failing timerfd_create |
| SessionTables.SessionTable.DeleteByTimerfd | Chapter11/epoll_timerfd.c:277-302 | Swap-deletes the first row with that timer and marks the last slot free, or reports ENOENT and changes nothing |
| SessionTables.SessionTable.FindBySocketfd | Chapter11/epoll_timerfd.c:304-323 | Finds the first row with that socket, and succeeds exactly if there is one |
| SessionTables.SessionTable.FindByTimerfd | Chapter11/epoll_timerfd.c:325-344 | Finds the first row with that timer, and succeeds exactly if there is one |
| EventLoop.InitialHasInv | Chapter11/epoll_timerfd.c:57-98 | The loop starts with table, open descriptors, interest set and timers in agreement |
| EventLoop.DelEvCloses | Chapter11/epoll_timerfd.c:207-229 | On a session's socket del_ev deletes only members of the interest set, finds the session and removes both descriptors everywhere |
| EventLoop.ClosedKeepsInv | Chapter11/epoll_timerfd.c:207-229 | Closing a session keeps the agreement and every other session's deadline |
| EventLoop.AcceptOpens | Chapter11/epoll_timerfd.c:177-205 | An accept with a working timer adds only non-members to the interest set and opens one session, due after its timeout |
| EventLoop.OpenedKeepsInv | Chapter11/epoll_timerfd.c:123-137 | A new session keeps the agreement, every other session's deadline and the bound on the allocation, whatever unused numbers it gets |
| EventLoop.AcceptExact | Chapter11/epoll_timerfd.c:123-137 | An accept never ends the program; the agreement survives it exactly if there is memory for the row and its timer is created and set |
| EventLoop.AcceptsAll | Chapter11/epoll_timerfd.c:123-137 | The accept loop takes all pending connections: each gets a row, in order, and is due 30 seconds after its accept; no other timer changes |
| EventLoop.ListenerServesAll | Chapter11/epoll_timerfd.c:120-137 | So does the event loop on an input event of the listener |
| EventLoop.GrowsBySixteen | Chapter11/epoll_timerfd.c:233-243 | A new session makes room for 16 more rows exactly when all rows are used |
| EventLoop.ErrorPaths | Chapter11/epoll_timerfd.c:184-202 | A member or a closed descriptor ends the program; without memory or timer there is no row but the socket stays watched; a timer that is not open is EBADF |
| EventLoop.UntimedSocketFails | Chapter11/epoll_timerfd.c:138-163 | After an accept without a row, data on that socket makes get_epollevent fail; after one whose timer could not be set, data sets a timer that nothing watches and a timeout event ends the program; after either the hang-up ends it |
| EventLoop.SetTimerKeepsInv | Chapter11/epoll_timerfd.c:261-275 | Re-arming succeeds on every session and sets its deadline to now plus its timeout |
| EventLoop.HandleCases | Chapter11/epoll_timerfd.c:138-163 | Any event, stale or not, closes the session whose timer it is, is ignored because recv fails, or is served by the session whose socket it is |
| EventLoop.HandleKeepsInv | Chapter11/epoll_timerfd.c:118-172 | Any event is handled without exit or error and keeps the agreement |
| EventLoop.HandleAllKeepsInv | Chapter11/epoll_timerfd.c:114-175 | So is any batch, with stale events and reused numbers |
| EventLoop.RoundsKeepInv | Chapter11/epoll_timerfd.c:98-109 | After any number of batches the program runs, no get_epollevent returned nonzero, table, descriptors, interest set and deadlines agree, and the allocation is a multiple of 16 below the peak plus 16 |
| EventLoop.HandleAllAppend | Chapter11/epoll_timerfd.c:118-174 | A batch is handled event after event up to the first failure, which abandons the rest |
| EventLoop.RoundsAppend | Chapter11/epoll_timerfd.c:98-109 | The rounds follow each other, and a failing get_epollevent ends none but its own |
| EpollServers.EpollServer.constructor | Chapter11/epoll_timerfd.c:57-98 | The program enters its loop in the initial world |
| EpollServers.EpollServer.SetTimer | Chapter11/epoll_timerfd.c:261-275 | Arms the session's timer or reports EBADF, as the event loop's function says |
| EpollServers.EpollServer.NewTimer | Chapter11/epoll_timerfd.c:231-259 | With memory and a timer the session gets a row and an open timer; otherwise the error is returned and only memory may have been gained |
| EpollServers.EpollServer.AddEv | Chapter11/epoll_timerfd.c:177-205 | On the table in memory add_ev does what the event loop's function says, with a failing realloc, timerfd_create or timerfd_settime included |
| EpollServers.EpollServer.Drop | Chapter11/epoll_timerfd.c:209-212 | Deletes from the interest set and closes; exits exactly on a non-member |
| EpollServers.EpollServer.DelEv | Chapter11/epoll_timerfd.c:207-229 | On the table in memory del_ev does what the event loop's function says, failures included |
| EpollServers.EpollServer.AcceptLoop | Chapter11/epoll_timerfd.c:123-137 | The accept loop takes the accepts in order and exits exactly when one of them does |
| EpollServers.EpollServer.HandleEvent | Chapter11/epoll_timerfd.c:120-171 | The loop body does what the event loop's function says on every event |
| EpollServers.EpollServer.GetEpollEvent | Chapter11/epoll_timerfd.c:114-175 | The loop handles the batch, abandoning it at the first nonzero return; with working timers it never exits, returns 0 and keeps the agreement |
| EpollServers.EpollServer.Serve | Chapter11/epoll_timerfd.c:98-109 | The loop of main handles any number of batches as the event loop's rounds say |
| Timeouts.HandleFate | Chapter11/epoll_timerfd.c:118-172 | An input event of a session's timer closes it by timeout; any other event leaves it alone or closes it without one |
| Timeouts.SocketEvent | Chapter11/epoll_timerfd.c:147-161 | On a session's socket a failing recv changes nothing, a hang-up closes the session, and data sets its timer to the full timeout |
| Timeouts.OtherEvent | Chapter11/epoll_timerfd.c:147-171 | An event without input, or of a descriptor that is no longer open, changes nothing |
| Timeouts.GoneStays | Chapter11/epoll_timerfd.c:118-172 | A session that is gone stays gone, and is never reported as timed out later |
| Timeouts.TimeoutExact | Chapter11/epoll_timerfd.c:138-145 | A session in the table when epoll_wait returns is closed by timeout in that batch exactly if an input event of its timer meets it still there |
| Timeouts.NotBeforeDeadline | Chapter11/epoll_timerfd.c:98-109 | A session whose deadline is ahead when epoll_wait returns is not closed by timeout in that batch, whatever numbers are reused |
| Timeouts.RearmedStillCloses | Chapter11/epoll_timerfd.c:138-161 | A timer event already in the batch closes a session that received data earlier in the same batch |
| Timeouts.ReusedNumberCloses | Chapter11/epoll_timerfd.c:123-145 | A stale timer event closes a session just accepted on the two numbers of one that hung up earlier in the batch |
| Timeouts.ReusedNumbersLowest | Chapter11/epoll_timerfd.c:123-137 | And accept and timerfd_create do return those numbers if they were the lowest ones for the closed session too |
| FileWrites.ApartCommute | Chapter10/aio_listio.c:76-80 | Two writes to disjoint intervals commute |
| FileWrites.AnyFirst | Chapter10/aio_listio.c:76-80 | Whichever of several disjoint writes completes first, the rest leads to the same file |
| FileWrites.AnyOrder | Chapter10/aio_listio.c:76-80 | Every order of completion of disjoint writes gives the same file |
| FileWrites.Adjacent | Chapter10/aio_listio.c:57-63 | Two writes to adjacent intervals are one |
| FileWrites.GapIsZero | Chapter10/aio_listio.c:58-60 | A write behind the end of the file leaves zeros in between |
| FileWrites.Copied | Chapter10/aio_listio.c:47-48 | The copy starts with the input and keeps an older, longer file's bytes beyond it |
| ListioMachine.BatchDisjoint | Chapter10/aio_listio.c:57-65 | The writes of a batch go to pairwise disjoint intervals |
| ListioMachine.BatchExtends | Chapter10/aio_listio.c:57-80 | The writes of a batch extend the copy from where the batch starts to the last byte read |
| ListioMachine.StepKeepsInv | Chapter10/aio_listio.c:50-104 | Each read, submission, refusal, completion, notification and barrier step keeps the invariant, in both build modes |
| ListioMachine.CopyCorrect | Chapter10/aio_listio.c:51-88 | When the program is done it has read everything, and if no list was refused the file is the input followed by what an older file had beyond it, for every schedule of short reads and completions |
| ListioMachine.BuffersSafe | Chapter10/aio_listio.c:53-84 | No slot is refilled and no control block cleared while a write is in flight, and no empty block is submitted |
| ListioMachine.StepDecreases | Chapter10/aio_listio.c:51-104 | Each step lowers the measure |
| ListioMachine.StuckExactlyWhenFinished | Chapter10/aio_listio.c:67-104 | The program can go on exactly until it is done or a list was refused with LIO_NOWAIT: every other list completes and the two-party barrier opens |
| ListioMachine.CopyEnds | Chapter10/aio_listio.c:51-88 | Every run is finite, and one that cannot go on has finished, exactly unless a list was refused with LIO_NOWAIT |
| ListioMachine.RefusedExactly | Chapter10/aio_listio.c:76-80 | The history of a run says a list was refused exactly if some lio_listio refused one |
| ListioMachine.BarrierMeets | Chapter10/aio_listio.c:76-82 | The main thread gets past a list only when its writes have completed, and with LIO_NOWAIT only together with the notification thread |
| ListioMachine.OneNoticePerList | Chapter10/aio_listio.c:68-104 | Along every LIO_NOWAIT run there is one notification for each accepted list, one arrival at the barrier for each, and one passage of the main thread |
| ListioMachine.ReadStep | Chapter10/aio_listio.c:53-67 | A read puts the next bytes into the next slot, none exactly at the end, and a list is submitted exactly when all slots are filled or the end is reached |
| ListioMachine.AnyReadNext | Chapter10/aio_listio.c:53 | Every number of bytes that read may deliver can be the one |
| ListioMachine.AnyWriteNext | Chapter10/aio_listio.c:76-80 | Every pending write can be the next to complete, and puts its slot's bytes at its offset |
| ListioMachine.ListNext | Chapter10/aio_listio.c:76-80 | A list is all slots that hold bytes, and may be accepted or refused |
| ListioMachine.BlocksZeroed | Chapter10/aio_listio.c:50-83 | Along every run the control blocks not filled are zero at the top of the loop, and all are at the end |
| ListioMachine.AnyStart | Chapter10/aio_listio.c:24-50 | A run can start with any input, former file, slots and build mode, so the theorems about runs are about those |
| ListioCopy.ReadSome | Chapter10/aio_listio.c:53 | A read delivers the next bytes, and none exactly at the end |
| ListioCopy.ListIo | Chapter10/aio_listio.c:80 | A waited-for list of disjoint writes, completed in any order, gives the file of doing them in order |
| ListioCopy.Copy | Chapter10/aio_listio.c:24-88 | The loop over slots and control blocks ends with the input copied and tot_len its length, and submits one list for every full set of slots and one more |
| PollTables.ReadyAfterRemove | Chapter07/io_poll.c:154-172 | After a deletion at the loop index what is ready from there on is what was ready behind it |
| PollTables.SignalledAfterRemove | Chapter07/io_poll.c:114-122 | And so is the number of entries with events, so the countdown stays sound |
| PollTables.PollTable.constructor | Chapter07/io_poll.c:78-79 | The table starts with the listener |
| PollTables.PollTable.AddSocket | Chapter07/io_poll.c:136-146 | Appends the descriptor, or returns -1 and leaves a full table alone |
| PollTables.PollTable.DelSocket | Chapter07/io_poll.c:148-173 | Closes and swap-deletes exactly that descriptor, returns its index or -1 and marks the slot behind the old table; writes behind the array exactly if the table is full and lists the descriptor |
| PollTables.PollTable.Sweep | Chapter07/io_poll.c:107-130 | Every client with POLLIN is served exactly once and no other, exactly those that hung up leave the table, and the countdown drops by one for each entry with POLLIN or an error; unless the array is overrun, exactly if the table is full and a ready client has hung up |
| PollTables.PollTable.Round | Chapter07/io_poll.c:81-131 | A round accepts one connection or sweeps, and the table stays the list of open descriptors, exactly unless the array is overrun |
| SwapDelete.RemoveKeepsOthers | Chapter07/io_poll.c:154-172 | Swap-delete removes one occurrence of the entry and keeps all others |
| Serving.ServeOne | Chapter07/io_select.c:107-123 | Serving one more descriptor keeps the served ones distinct and adds it to the hung-up ones exactly if recv returned 0 |
| SelectTables.ReadyAtGap | Chapter07/io_select.c:147-161 | What is ready from a deletion on is the entry deleted, the one moved into the gap, and what is ready behind the gap |
| SelectTables.DeleteStep | Chapter07/io_select.c:107-123 | A deletion passes over at most the entry moved into the gap, and the accounts of the sweep stay balanced |
| SelectTables.SomeArePassedOver | Chapter07/io_select.c:107-123 | The bounds are reached: with two ready clients, the second is not served when the first hangs up |
| SelectTables.ServedOrCloser | Chapter07/io_select.c:107-123 | In one sweep a ready client is served or moves to a smaller index |
| SelectTables.NobodyStarves | Chapter07/io_select.c:84-124 | A client at index p that stays ready is served within p sweeps, whoever comes and goes in between |
| SelectTables.SelectTable.constructor | Chapter07/io_select.c:80-82 | The table starts with the listener |
| SelectTables.SelectTable.AddSocket | Chapter07/io_select.c:129-137 | Appends the descriptor, or returns -1 and leaves a full table alone |
| SelectTables.SelectTable.DelSocket | Chapter07/io_select.c:139-164 | Closes and swap-deletes exactly that descriptor, frees the last slot, and returns its index or -1 |
| SelectTables.SelectTable.MkFds | Chapter07/io_select.c:166-177 | The set holds exactly the table's descriptors, and the result is the greatest of them or -1 |
| SelectTables.SelectTable.Sweep | Chapter07/io_select.c:107-123 | Only ready clients are served, each at most once; those passed over are no more than the deletions and are still in the table |
| SelectTables.SelectTable.Round | Chapter07/io_select.c:84-124 | With the listener ready a round appends the accepted connection if it fits and changes nothing otherwise; else it sweeps what select reported of the table's descriptors |
| SemUndo.StepKeepsInv | Chapter05/sysv_sem_zwait.c:84-138 | Each fork, wait, post, end, abort or kill keeps a permit outstanding exactly for each child inside |
| SemUndo.PermitsConserved | Chapter05/sysv_sem_zwait.c:84-138 | The value plus the undo amounts, and the value plus the children inside, are the initial value in every reachable state |
| SemUndo.MutualExclusion | Chapter05/sysv_sem.c:66-92 | With one permit at most one child is inside |
| SemUndo.RemovedAtRest | Chapter05/sysv_sem_zwait.c:66-70 | The semaphore is removed only when all processes have ended, with its value fully restored |
| SemUndo.PassNeedsAllPermits | Chapter05/sysv_sem_zwait.c:75-82 | The zero-waiter passes only while all permits are held |
| SemUndo.WaiterCanPassExactly | Chapter05/sysv_sem_zwait.c:31-73 | The zero-waiter can get through in some run exactly if there are as many children as permits |
| SemUndo.RemovalReachable | Chapter05/sysv_sem_zwait.c:48-70 | Once the waiter is through, a run leads to the removal of the semaphore |
| SemUndo.RemovalExactly | Chapter05/sysv_sem_zwait.c:31-73 | Unless the waiter is killed, the parent can get to the removal in some run exactly if there are as many children as permits |
| SemUndo.FillingReachable | Chapter05/sysv_sem_zwait.c:48-64 | Any number of children up to the permits can be inside together |
| SemUndo.OnceInOnceOut | Chapter05/sysv_sem_zwait.c:84-110 | Along every run each child enters at most once, leaves alive at most once and only after that, and is on its way to its end then |
| SemUndo.ChildGoesOn | Chapter05/sysv_sem_zwait.c:84-138 | A child can enter exactly if a permit is free, leave with its post when it is inside, and end anywhere, giving back the permit it holds |
| SemUndo.WaiterGoesOn | Chapter05/sysv_sem_zwait.c:140-152 | The zero-waiter can pass exactly when the value is zero, and can be killed before |
| SemUndo.AnyStart | Chapter05/sysv_sem_zwait.c:38-48 | A run can start with any number of permits and children, with the zero-waiter and without, so the theorems about runs are about those |
| CancelMutex.StepKeepsInv | Chapter08/cleanup_mutex.c:51-85 | Each step, cancellation request and cancellation keeps both locks in line with where each thread stands |
| CancelMutex.MutexAlwaysReleased | Chapter08/cleanup_mutex.c:51-85 | Every unlock is by the owner, and a thread that has ended has released the mutex exactly as often as it acquired it |
| CancelMutex.StdoutKeptExactly | Chapter08/cleanup_mutex.c:9-14 | A thread that has ended still holds stdout exactly if a cancellation took effect inside one of its messages |
| CancelMutex.StepDecreases | Chapter08/cleanup_mutex.c:51-85 | Each step lowers the measure |
| CancelMutex.NoDeadlock | Chapter08/cleanup_mutex.c:51-85 | Until the main thread has returned some thread can step, if none was cancelled inside a message: no other cancellation locks the rest out |
| CancelMutex.RunsEnd | Chapter08/cleanup_mutex.c:117-126 | Every run is finite, and when nobody can step the main thread has joined all threads and returned, with both locks free, exactly if no cancellation took effect inside a message |
| CancelMutex.MessageCutDeadlocks | Chapter08/cleanup_mutex.c:51-85 | With five threads or more there is a run in which thread 1's cancellation meets thread 2 inside its message, and in the end another thread and the main thread are blocked for good |
| CancelMutex.SleeperCleansUp | Chapter08/cleanup_mutex.c:60-85 | Unless some thread was cut short inside a message, a request made while a thread sleeps with the mutex leads to its end through the handler, which writes its message while it owns the mutex and then gives it back |
| CancelMutex.GoesOnExactly | Chapter08/cleanup_mutex.c:51-85 | A thread can go on unless it wants a lock that another holds; requests can be made at any time, and take effect at the sleeps and inside messages outside the handler and nowhere else |
| CancelMutex.MainGoesOnExactly | Chapter08/cleanup_mutex.c:117-126 | The main thread waits for the thread it joins and for stdout, and for nothing else |
| CancelMutex.SleepsCounted | Chapter08/cleanup_mutex.c:63-75 | Along every run a thread that gives the mutex back on its own has slept four times with it, one that does so in the handler fewer times, and thread 1 sleeps once more before it cancels |
| CancelMutex.MessagesWritten | Chapter08/cleanup_mutex.c:61-72 | Along every run a thread that sleeps with the mutex has written its message, and thread 1 both of its own before it cancels |
| CancelMutex.JoinsReported | Chapter08/cleanup_mutex.c:117-126 | Along every run the main thread has written one message for each thread it is done with |
| CancelMutex.OnlyThreadTwoAsked | Chapter08/cleanup_mutex.c:70-75 | As long as nobody outside cancels, thread 2 is the only one ever asked to end, by thread 1 |
| CancelMutex.GoesThrough | Chapter08/cleanup_mutex.c:51-78 | Every thread can go through undisturbed, taking and giving back the mutex once, and thread 1 then has cancelled thread 2 |
| CancelMutex.AnyStart | Chapter08/cleanup_mutex.c:34-44 | A run can start with any number of threads, so the theorems about runs are about those |
| ChildPool.StepKeepsInv | Chapter11/io_signalfd_chld.c:49-106 | Each change of a child, read, report and fork keeps the count of unreaped children and never overwrites the end of a child |
| ChildPool.PoolSize | Chapter11/io_signalfd_chld.c:46-106 | At every return to read the unreaped children are the pool plus the stop reports consumed, however signals merge and drains end |
| ChildPool.StopsExactly | Chapter11/io_signalfd_chld.c:79-81 | The stops that PoolSize counts are the stop reports collected along the run |
| ChildPool.ForksExactly | Chapter11/io_signalfd_chld.c:66-100 | Along every run there is one fork for each end and each stop collected, and no other |
| ChildPool.TakenLeadsTo | Chapter11/io_signalfd_chld.c:63-104 | A collected end or stop leads to a fork, the end also removing the child; any other report sends the parent back to read |
| ChildPool.ForkFollows | Chapter11/io_signalfd_chld.c:96-100 | The fork adds one running child, and the drain goes on |
| ChildPool.ChangesExactly | Chapter11/io_signalfd_chld.c:55-83 | A child can end as long as it lives, stop or be trapped while it runs and continue only when stopped, and SIGCHLD tells the parent |
| ChildPool.AnyReportNext | Chapter11/io_signalfd_chld.c:63 | waitid may report any child that has a change |
| ChildPool.DrainEnds | Chapter11/io_signalfd_chld.c:96-104 | The flag that NobodyForgotten uses says whether nothing was left when the last drain ended |
| ChildPool.NobodyForgotten | Chapter11/io_signalfd_chld.c:61-104 | With no signal pending after a drain that ran out of reports, nothing is left to collect and every child lives |
| ChildPool.DrainCompleteExactly | Chapter11/io_signalfd_chld.c:61-104 | With two children or more, a parent blocked in read has collected every report in all runs exactly if no child can be trapped, nor be both stopped and continued |
| ChildPool.EndsReapedExactly | Chapter11/io_signalfd_chld.c:61-104 | And every child that ended has been reaped in all runs exactly if that is so or no child can end |
| ChildPool.EarlyEndForgets | Chapter11/io_signalfd_chld.c:83-104 | Otherwise a continue or trap report can leave the parent blocked with any other child's change uncollected, an end included |
| ChildPool.StuckExactlyWhenBlocked | Chapter11/io_signalfd_chld.c:49-106 | The parent can go on exactly unless it is in read with no signal pending |
| ChildPool.ParentComesToRest | Chapter11/io_signalfd_chld.c:61-104 | While no child changes, every run of the parent is finite and ends in read with no signal pending |
| ChildPool.AnyStart | Chapter11/io_signalfd_chld.c:46-47 | A run can start with any children and any kinds of change, so the theorems about runs are about those |

## Left out

- EventLoop.RoundsKeepInv: assumes that `realloc`, `timerfd_create` and `timerfd_settime` succeed; AcceptExact shows that this is needed.
- Timeouts.NotBeforeDeadline: does not promise a full idle period up to the closing itself; RearmedStillCloses and ReusedNumberCloses show that there is none.
- WorkQueues.WorkQueue.TryPop: one pass of the loop in `pop_item`; the wait and the repetition are steps of QueueProtocol.
- QueueProtocol.PopReachable: a pop is always reachable; that the scheduler takes such steps is not claimed.
- ListioMachine.CopyCorrect: each queued write is taken to succeed in full and to take its data when it completes; write errors, which the program does not look at, a list queued in part, and integer overflow of `tot_len` are not modelled.
- ChildPool.PoolSize: `fork` and `waitid` do not fail; what a child does with its signals is only that it may end, stop, be trapped by a tracer or, when stopped, continue at any point.
- Ends of the FIFO and read errors in cond_var.c and cond_var_rts.c, which exit the process; `clean_thread` there, which waits for threads that never return; the sign of `char`.
- A failing `sigqueue`, which exits the process, and other signals than SIGRTMIN in `start_sigthread`.
- Errors of `pthread_mutex_lock` in cleanup_mutex.c, with the message they print; its commented-out variant without the pop.
- What becomes of the memory behind `pollfds` when it is overrun.
- Creation of the semaphore and a set that exists already with another value; interrupted `semop` calls.
- Socket set-up, `getaddrinfo`, `bind`, `fcntl`, `setsockopt`, the printing macros and `get_time0`.
- Spurious failures of `epoll_ctl`, `accept` errors other than ending the loop, and the bound of 32 events a batch (batches of any size are covered).
- Weak memory effects of unsynchronised accesses; every access modelled as a step is under the mutex, local, or a system call.
- Chapter07/io_epoll.c, Chapter08/mutex_type.c, Chapter08/barrier.c, Chapter05/posix_nameless_sem.c and the one-shot system call demonstrations of the other chapters: no invariant of their own beyond the library's.
