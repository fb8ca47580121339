# Verification of the web server and its game

A Dafny model of the epoll web server (`src/`) and of the small game beside it (`src/planewar/`), with proofs.
`dafny verify dfyconfig.toml` checks everything; the files need nothing but each other.

| files | what they model |
|---|---|
| `QueueProtocol`, `QueueInvariant`, `QueueTheorems`, `QueueProgress`, `QueueWrap`, `QueueWrapLimit` | the lock-free MPMC queue: a transition system with one step per atomic access, its inductive invariant, FIFO and linearizability, lock-freedom, and the 64-bit counters refining the unbounded ones, up to an exact limit |
| `LockFreeQueue` | the same queue as an object whose `Enqueue` and `Dequeue` run their retry loops while other threads interfere |
| `AsyncLog`, `ThreadPool` | the two clients of the queue, as whole runs |
| `HeapTimer` | the array heap with its id-to-index map, against a plain map, with other threads between any two sections under its lock |
| `ConnectionLifecycle` | accepting thread, pool tasks, timer, destructor and kernel descriptors; connections carry generation numbers so that descriptor reuse is visible |
| `Buffer`, `Text`, `FieldNames`, `Wrappers` | the sliding byte buffer in its array; searching, `std::to_string`, `std::from_chars`; header field names; an option type |
| `RequestParser`, `HttpRequest`, `RequestTheorems` | the incremental request parser: as a function on values, as the object, and its theorems |
| `HttpResponse`, `ResponseFraming` | the response serialiser, and an independent reader of messages |
| `FileServer` | answering a request for a file or a byte range of it |
| `HttpConn`, `HttpConnTheorems` | one connection: renew the timer, read, parse, answer, write, close |
| `RequestDelivery`, `RequestErrors`, `FileDelivery` | from the request to the client: requests cut into reads in any way and pipelined, malformed lines and bodies cut short, and what a file server's clients read |
| `GameRules`, `Game` | the rules of a frame on sequences, and the game object with its ledger |
| `Bits` | machine words: masks, wrapped differences, powers of two |

Objects that the program updates in place are classes whose methods are proved against a function of the old state
(`View`, `Pending`, `Contents`); concurrent code is a total step function on states, and statements about it hold for
every sequence of steps of any number of threads. Sockets, files, clocks and scheduling are parameters: what a read
brings, how much a write takes, when other threads move.

Where the code does not do what its context suggests, the model follows the code and a lemma says exactly when:

- A worker never comes back from `Parse` in two situations, and only in those: an error with a CRLF still ahead, and an
  announced body that has not arrived in full while a CRLF is in sight. So a malformed line is answered by 400 if and
  only if no further line end has come in with it; the connection is then closed if the write fails or takes everything.
  A complete request with a malformed header line gets the worker stuck however it is cut into reads, unless the
  connection is closed before, as by such a 400 (`RequestParser.StuttersIff`, `RequestParser.FinishesIff`,
  `RequestErrors.BadLineAnsweredIff`, `RequestErrors.BadLineCloses`, `RequestErrors.ReadsHang`,
  `RequestErrors.EarlyLineEndHangs`, `RequestErrors.BadHeaderHangs`).
- A read event gets at most one request answered. A request that came in whole behind another one stays unread until a
  later read brings at least one byte, and is answered if and only if one does; otherwise the connection is closed, its
  request unanswered, once the earlier answers have gone out (`RequestDelivery.CompleteAnsweredIff`,
  `RequestDelivery.PipelinedStarves`).
- A body without any CRLF in sight is never taken, and a Content-Length of 2^64 or more is read as 0: the request is
  handled with an empty body, and its body is read as the next request (`RequestTheorems.BodyReadBack`).
- `bytes=a-b` is answered in a way RFC 9110 (sections 14.1.1, 14.1.2, 14.2, 14.4 and 15.5.17) allows if and only if the
  file is empty, or `a` is below 2^64 and `a <= b` or `a` is past the end. A reversed range inside the file gets an empty
  206 or a 500; an `a` of 2^64 or more is read as 0, so that a range far past the end is served from the beginning.
  `bytes=a-` is answered in a way it allows if and only if `a` is below 2^64 or the file is empty. `bytes=-n` serves the
  first `n + 1` bytes instead of the last `n`, which is allowed if and only if the file is not empty and has at most `n`
  bytes, or is empty and `n` is 0. All this holds for numerals of any length, leading zeros included
  (`FileServer.IntRangeConformsIff`, `FileServer.ReversedRange`, `FileServer.HugeRangeServesTheFile`,
  `FileServer.OpenRangeConformsIff`, `FileServer.SuffixRangeConformsIff`).
- A response object serves a connection for its whole life and keeps its header fields: an answer carries a
  Content-Range if and only if it is a 206 or 416 or an earlier answer on the connection was, and a run exists in which a
  whole file under 200 carries the Content-Range of an earlier part (`FileDelivery.ContentRangeIff`,
  `FileDelivery.StaleContentRange`).
- `adjust` only sifts down: it keeps heap order if and only if the new expiry is not before the parent's. The server's
  one timeout and a clock that does not run backwards guarantee that (`HeapTimer.HeapTimer.Adjust`, `HeapTimer.ServerRun`).
- Log entries can be lost at shutdown: the file holds every accepted entry if and only if at the writer's last look no
  producer held the tail ticket unpublished, and no ticket has been claimed since (`AsyncLog.NothingLostIff`,
  `AsyncLog.LateProducerIsLost`). With quiet producers nothing is lost (`AsyncLog.DrainedOnExit`).
- 64-bit counters behave like unbounded ones as long as no ticket in a retry loop is more than 2^63 minus the capacity
  claims old (`QueueWrap.RunWraps`). One claim more, still less than 2^63, and `enqueue` can return false from an empty
  queue, `dequeue` from a full one (`QueueWrapLimit.LagBoundTight`, `QueueWrapLimit.DequeueLagBoundTight`); within one
  turn of the counters the branch is right if and only if the slot's `id` is less than 2^63 ahead of what the thread
  expects there (`QueueWrapLimit.BranchRightIff`).
- With bullets only, the health enemies lose equals the bullets used up if and only if no enemy is hit more often than
  its 32-bit health is above the smallest integer (`GameRules.HealthPaysForBulletsIff`). The smallest integer is what the
  spawn formula gives red and blue enemies at score 0; one hit before the sweep makes such an enemy's health the greatest
  there is (`GameRules.BornDeadRevives`).
- An answer tells the client to keep the connection alive if and only if the client asked for it, and the connection is
  closed all the same once everything has gone out (`FileDelivery.ConnectionAnnounced`, `HttpConnTheorems.ClosesIff`). A
  connection is armed for writing only after a write has taken some of its bytes: an answer of which the first write takes
  nothing is not (`HttpConnTheorems.ArmedIff`, `RequestDelivery.AnswerStalls`).
- Painting the screen cuts the player's lives and spells to nine, for good, not only on the screen
  (`Game.Game.PaintScore`). A paused game has no key that resumes it (`GameRules.PauseForEver`).

## Model

| member | source | states |
|---|---|---|
| `QueueInvariant.StepInv` | src/util/lock_free_queue.hpp:44-96 | every atomic step of every thread keeps the slot invariant: tail <= head <= tail + capacity, and each ticket of the window is free, in production, published, or waiting for the release of its predecessor |
| `QueueInvariant.RunInv` | src/util/lock_free_queue.hpp:44-96 | so does every interleaving |
| `QueueTheorems.HistoryGrows` | src/util/lock_free_queue.hpp:53-55 | over any run tickets keep their owner and their value |
| `QueueTheorems.FirstInFirstOut` | src/util/lock_free_queue.hpp:44-96 | in every reachable state the value moved out under tail ticket p is the value accepted under head ticket p, and a returned `dequeue` handed its caller exactly that value under a ticket it alone claimed |
| `QueueTheorems.TakenInOrder` | src/util/lock_free_queue.hpp:44-96 | the values of the first n tail tickets are the first n accepted values: nothing lost, duplicated or reordered |
| `QueueTheorems.StepLinearizes` | src/util/lock_free_queue.hpp:53-55 | one successful compare-and-swap is one legal operation of a sequential bounded FIFO queue, and no other step changes its contents |
| `QueueTheorems.RunLinearizes` | src/util/lock_free_queue.hpp:44-96 | in every interleaving the successful compare-and-swaps, in order, replay on a sequential bounded FIFO queue and end in the contents between the two counters |
| `QueueTheorems.SlotOwnerUnique` | src/util/lock_free_queue.hpp:66-67 | no two threads are between a successful compare-and-swap and the `id` store of the same slot, so `data` is never accessed by two at once |
| `QueueTheorems.EnqueueDiff` | src/util/lock_free_queue.hpp:49-63 | `diff` > 0 only on a stale ticket; `diff` < 0 exactly when the ticket is current and there is no room |
| `QueueTheorems.DequeueDiff` | src/util/lock_free_queue.hpp:76-90 | the same for `dequeue`: `diff` < 0 exactly when the ticket is current and nothing is ready |
| `QueueTheorems.EnqueueReturnsFalse` | src/util/lock_free_queue.hpp:57-59 | `enqueue` returns false if and only if at the `id` load its ticket is current and the queue is full or the slot's last consumer is between claim and release |
| `QueueTheorems.DequeueReturnsFalse` | src/util/lock_free_queue.hpp:84-86 | `dequeue` returns false if and only if at the `id` load its ticket is current and the queue is empty or the producer is between claim and publication |
| `QueueProgress.EnqueueRetriesPaidFor` | src/util/lock_free_queue.hpp:48-64 | the retries of one `enqueue` call are at most the tickets others claimed since the call plus its spurious failures |
| `QueueProgress.DequeueRetriesPaidFor` | src/util/lock_free_queue.hpp:75-91 | the same for `dequeue` |
| `QueueProgress.SoloFinishes` | src/util/lock_free_queue.hpp:44-96 | from any reachable state a thread running alone returns within six steps |
| `QueueProgress.SoloEnqueues` | src/util/lock_free_queue.hpp:44-69 | with room in the queue, a call of `enqueue` running alone gets its value accepted and published, and returns true, in five steps |
| `QueueWrap.CapacityAcceptedIff` | src/util/lock_free_queue.hpp:27-29 | the constructor's test accepts exactly the powers of two from two on |
| `QueueWrap.EnqueueBranch` | src/util/lock_free_queue.hpp:49-51 | the masked load and the signed cast of the wrapped difference give the unbounded `diff` |
| `QueueWrap.DequeueBranch` | src/util/lock_free_queue.hpp:76-78 | the same in `dequeue` |
| `QueueWrap.StepWraps` | src/util/lock_free_queue.hpp:44-96 | a step on 64-bit words takes the same branch, touches the same slot and stores the same values modulo 2^64 |
| `QueueWrap.RunWraps` | src/util/lock_free_queue.hpp:44-96 | so the machine refines the unbounded protocol over every run in which no ticket in a retry loop is too old |
| `QueueWrapLimit.BranchRightIff` | src/util/lock_free_queue.hpp:49-63 | within one turn of the counters the wrapped `diff` takes the right branch if and only if the true one is below 2^63 |
| `QueueWrapLimit.LagBoundTight` | src/util/lock_free_queue.hpp:49-59 | for every capacity, a run after which a ticket one claim older than the bound makes `enqueue` return false from an empty queue |
| `QueueWrapLimit.DequeueLagBoundTight` | src/util/lock_free_queue.hpp:76-86 | the same for `dequeue`, which returns false from a full queue |
| `Bits.PowerOfTwoTest` | src/util/lock_free_queue.hpp:27-27 | `capacity & (capacity - 1)` is zero exactly for powers of two |
| `Bits.BitAndMask` | src/util/lock_free_queue.hpp:49-49 | masking with a power of two less one is the remainder |
| `Bits.SignedDifference` | src/util/lock_free_queue.hpp:51-51 | the signed cast recovers a difference if and only if it fits 63 bits and a sign |
| `LockFreeQueue.LockFreeQueue.CasHead` | src/util/lock_free_queue.hpp:53-55 | a successful exchange claims exactly one ticket for the value; a failed one loads the current head |
| `LockFreeQueue.LockFreeQueue.CasTail` | src/util/lock_free_queue.hpp:80-82 | the same for the tail, and the claimed ticket has an accepted value |
| `LockFreeQueue.LockFreeQueue.Perform` | src/util/lock_free_queue.hpp:44-96 | any thread's access on the object's fields is the protocol's step |
| `LockFreeQueue.LockFreeQueue.Enqueue` | src/util/lock_free_queue.hpp:44-69 | under any finite interference the loop ends; true: the value was accepted under exactly one ticket of this call; false: no ticket was claimed and at a moment within the call there was no room |
| `LockFreeQueue.LockFreeQueue.Dequeue` | src/util/lock_free_queue.hpp:71-96 | true: the value returned is the one accepted under the single ticket this call claimed; false: no ticket was claimed and at a moment within the call nothing was ready |
| `AsyncLog.FileIsPrefix` | src/log/logger.cpp:66-86 | at every moment the file is a ticket-ordered prefix of the accepted entries, short of the tail by one at most |
| `AsyncLog.CompleteAtExitIff` | src/log/logger.cpp:82-84 | at the writer's last look the file is complete if and only if no producer holds the tail ticket unpublished |
| `AsyncLog.NothingLostIff` | src/log/logger.cpp:66-86 | over a whole run, before and after the writer has left: the file holds every accepted entry if and only if no producer held the tail ticket at the last look and no ticket was claimed after it |
| `AsyncLog.DrainedOnExit` | src/log/logger.cpp:66-86 | if no producer is active from some moment on, the file holds every accepted entry when `async_write` exits |
| `AsyncLog.WriterExits` | src/log/logger.cpp:7-11 | told to stop at any moment and left to run alone, the writer exits within 8 steps per unclaimed entry and 19 more, so the join ends |
| `AsyncLog.ExitOnlyIfStopped` | src/log/logger.cpp:75-79 | in every run the writer exits only if it was told to stop |
| `AsyncLog.NextEntryWritten` | src/log/logger.cpp:68-86 | stopped or not, with no producer in between, the writer running alone appends the next entry that is not in the file within eight steps |
| `AsyncLog.LateProducerIsLost` | src/log/logger.cpp:82-86 | for every capacity, a run in which an active producer's entry is accepted, reported as enqueued and never written |
| `ThreadPool.PoolRunInv` | src/pool/threadpool.h:35-47 | every run of submitters, tasks that submit tasks, workers and shutdown keeps each claimed task with the worker that claimed it |
| `ThreadPool.EveryTaskAccountedFor` | src/pool/threadpool.h:35-47 | in every reachable state an accepted task is in exactly one of: queued, being transferred, running, finished; none is started twice |
| `ThreadPool.AfterJoin` | src/pool/threadpool.h:52-59 | when all workers have exited, the claimed tasks are exactly the finished ones, and the others are still queued |
| `ThreadPool.ExitOnlyIfStopped` | src/pool/threadpool.h:35-46 | no worker leaves a pool that was not told to stop |
| `ThreadPool.WorkerLeaves` | src/pool/threadpool.h:35-59 | told to stop, a worker that is not held up by its task leaves within nine steps of its own, so the join ends |
| `ThreadPool.QueuedTaskStarts` | src/pool/threadpool.h:35-39 | in a pool that is not stopped, with the oldest task published, any free worker running alone starts that task within nine steps |
| `ThreadPool.SubmissionAccepted` | src/pool/threadpool.h:73-75 | with room in the queue a submission running alone gets its task accepted and published, and changes nothing else |
| `HeapTimer.SwapUp` | src/timer/heap_timer.cpp:5-10 | a swap of the upward sift, ties included, moves the only disorder to the parent |
| `HeapTimer.SwapDown` | src/timer/heap_timer.cpp:22-28 | a swap of the downward sift with the earlier child moves the only disorder to that child |
| `HeapTimer.FrontIsEarliest` | src/timer/heap_timer.cpp:115-115 | the front of an ordered heap expires no later than any node |
| `HeapTimer.Front` | src/timer/heap_timer.cpp:112-115 | the heap is empty exactly when nothing is pending, and the front is a pending entry, an earliest one if the heap is ordered |
| `HeapTimer.HeapTimer.SiftUp` | src/timer/heap_timer.cpp:3-11 | keeps the pending timers and every node beyond the prefix, and restores order |
| `HeapTimer.HeapTimer.SiftDown` | src/timer/heap_timer.cpp:19-30 | the same; it returns false exactly as a request to sift up, with nothing moved and all children in order |
| `HeapTimer.HeapTimer.Del` | src/timer/heap_timer.cpp:80-94 | removes exactly that timer |
| `HeapTimer.HeapTimer.Add` | src/timer/heap_timer.cpp:32-51 | sets the timer in the abstract map whether or not it was pending, and keeps order |
| `HeapTimer.HeapTimer.DoWork` | src/timer/heap_timer.cpp:53-69 | removes the timer, then what its callback cancels, whatever other threads do in between |
| `HeapTimer.HeapTimer.Rearm` | src/timer/heap_timer.cpp:102-103 | order survives if and only if the new expiry is not before the parent's |
| `HeapTimer.HeapTimer.Adjust` | src/timer/heap_timer.cpp:96-104 | changes exactly that expiry; order survives if and only if it is not before the parent's, hence whenever no pending expiry is later |
| `HeapTimer.HeapTimer.Pop` | src/timer/heap_timer.cpp:128-132 | removes an earliest timer |
| `HeapTimer.HeapTimer.Tick` | src/timer/heap_timer.cpp:106-126 | terminates; whatever other threads do between two firings, every node fired is at that moment pending, an earliest one and without a whole millisecond left, what is pending afterwards is what all that was done in turn leaves, each node fired is followed by what its callback cancels, and nothing due at the last clock reading is left; with no other threads, nodes fire in order of expiry and what remains is what was neither fired nor cancelled |
| `HeapTimer.FiredOnce` | src/timer/heap_timer.cpp:106-126 | a fired timer is among the removed ones from then on, so none fires twice unless another thread sets it again |
| `HeapTimer.HeapTimer.GetNextTick` | src/timer/heap_timer.cpp:140-149 | ticks first: everything due is fired, as by `Tick`, before the wait is looked up; then -1 exactly when nothing is pending, otherwise the whole milliseconds to an earliest expiry, narrowed to an int and 0 if negative; with the one timeout never longer than that, unless some expiry is 2^31 milliseconds ago |
| `HeapTimer.WaitIsTight` | src/timer/heap_timer.cpp:144-148 | unless 0, that wait is never past a pending expiry if and only if the earliest is not a whole millisecond ago or the narrowing leaves it at 0 or less; it is within a millisecond of the earliest if and only if that is within an int of milliseconds |
| `HeapTimer.WaitIsBounded` | src/timer/heap_timer.cpp:144-148 | with no expiry beyond the timeout the wait is within it if and only if the narrowing does not lengthen it |
| `HeapTimer.ServerRun` | src/http/http_conn.cpp:13-13 | every sequence of the server's timer calls at whatever times, with other threads in between, keeps the heap ordered, and each call does to the pending timers what it is for |
| `ConnectionLifecycle.StepInv` | src/server/server.cpp:39-97 | every step of accept, dispatch, tick, task and destructor keeps the ownership invariant |
| `ConnectionLifecycle.RunInv` | src/server/server.cpp:39-97 | so does every run |
| `ConnectionLifecycle.EntriesBelongToOwner` | src/server/server.cpp:46-57 | in every reachable state a `users_` or timer entry under a descriptor belongs to the one live connection that owns it |
| `ConnectionLifecycle.StepTouchesOnlyItsActor` | src/http/http_conn.h:30-34 | a late close, timeout, adjust, cancel or descriptor close of one connection leaves every other connection's entries, timer and descriptor as they were |
| `ConnectionLifecycle.TaskKeepsItsDescriptor` | src/server/server.cpp:89-93 | while a task holds its reference its connection is not being destroyed and still owns its descriptor |
| `ConnectionLifecycle.NothingLeaks` | src/http/http_conn.h:30-34 | every open descriptor belongs to a connection that is referenced or being destroyed, and a published connection has a timeout pending or about to run |
| `ConnectionLifecycle.ClosedForGood` | src/http/http_conn.h:33-33 | a closed connection never owns a descriptor again |
| `ConnectionLifecycle.AcceptPublishes` | src/server/server.cpp:43-66 | an accepted connection is in the table and in the timer under its descriptor three steps later |
| `ConnectionLifecycle.EventsReachTheirConnection` | src/server/server.cpp:84-94 | an event becomes a task that holds the published connection, and the task renews that connection's timer |
| `ConnectionLifecycle.CloseLetsGo` | src/server/server.cpp:53-57 | after the close callback the table has no entry for the connection, and nobody but tasks refers to it |
| `ConnectionLifecycle.TimeoutLetsGo` | src/server/server.cpp:48-52 | so after the timeout's callback |
| `ConnectionLifecycle.LetGoForGood` | src/http/http_conn.h:30-34 | from then on, whatever else happens, it never comes back, and it comes nearer to being closed by exactly one with each release and each action of its destructor |
| `ConnectionLifecycle.CloseClosesDescriptor` | src/http/http_conn.h:30-34 | from a close to the closed descriptor: the tasks that hold the connection finish and the destructor takes its three actions |
| `ConnectionLifecycle.TimeoutClosesDescriptor` | src/http/http_conn.h:30-34 | the same from a due timeout |
| `Text.FromCharsOfToString` | src/http/http_response.cpp:36-36 | a printed number reads back if it fits in 64 bits, whatever non-digit follows, and leaves the variable alone if it does not |
| `Buffer.Buffer.Compact` | src/buffer/buffer.cpp:132-137 | the overlapping move to the front keeps the contents and frees the space before them |
| `Buffer.Buffer.MakeSpace` | src/buffer/buffer.cpp:128-139 | makes room and keeps the contents |
| `Buffer.Buffer.Append` | src/buffer/buffer.cpp:67-72 | the contents grow by exactly the bytes appended |
| `Buffer.Buffer.ReadFd` | src/buffer/buffer.cpp:88-107 | the two segments of one `readv` are appended in order, or nothing on failure |
| `Buffer.Buffer.FindCrlf` | src/buffer/buffer.h:45-58 | the first CRLF CRLF of the contents, or none |
| `RequestParser.StuttersIff` | src/http/http_request.cpp:74-82 | the loop repeats itself exactly in ERROR with a CRLF ahead, and in BODY with a CRLF ahead and too few bytes |
| `RequestParser.IterationProgress` | src/http/http_request.cpp:32-85 | every other continuing iteration finishes or consumes at least two bytes, and leaves a suffix |
| `RequestParser.FinishesIff` | src/http/http_request.cpp:30-86 | the parser finishes if and only if the loop is left after finitely many turns, and then within one per byte and two more |
| `RequestParser.UnreadIsSuffix` | src/http/http_request.cpp:85-85 | what is left unread is the end of the input, so the count returned is within it |
| `HttpRequest.HttpRequest.ParseRequestLine` | src/http/http_request.cpp:88-98 | splits at the first and the last space, or refuses and changes nothing |
| `HttpRequest.HttpRequest.ParseHeaders` | src/http/http_request.cpp:107-124 | splits at the first colon, or fails into ERROR |
| `RequestTheorems.FieldReadBack` | src/http/http_request.cpp:107-124 | a header line stores its value under its name, with no blank, one or many spaces and tabs after the colon; nothing but blanks is stored as it is |
| `HttpRequest.HttpRequest.Parse` | src/http/http_request.cpp:30-86 | the object's loop computes the parser's outcome: fields, bytes consumed, or the point from which it runs for ever |
| `RequestTheorems.ParseSplit` | src/http/http_request.cpp:30-62 | parsing may stop anywhere and go on from what was left unread with the rest appended |
| `RequestTheorems.StuckOnError` | src/http/http_request.cpp:81-82 | stuck on an error, it stays stuck whatever else arrives |
| `RequestTheorems.DeliveryIndependent` | src/http/http_conn.cpp:23-25 | however a stream is cut into reads, fields and unread bytes are those of one read, unless a read ends inside a body that the parser gets stuck in |
| `RequestTheorems.HeadReadBack` | src/http/http_request.cpp:41-62 | any printed request head, with any blanks before the values, repeated keys and Content-Length included, is parsed back, whatever follows |
| `RequestTheorems.RequestRoundTrip` | src/http/http_request.cpp:30-62 | a printed request without body is read back field by field, and what follows its blank line stays unread |
| `RequestTheorems.BodyReadBack` | src/http/http_request.cpp:64-79 | an announced body is taken exactly if it has arrived and a CRLF is in sight; an announced length of 2^64 or more is read as 0; what happens in the other cases |
| `HttpResponse.HttpResponse.AppendToBuffer` | src/http/http_response.cpp:17-48 | the buffer grows by exactly the serialised response |
| `ResponseFraming.FindHeadEnd` | src/http/http_response.cpp:45-46 | the first CRLF CRLF is the end of the head |
| `ResponseFraming.ResponseRoundTrip` | src/http/http_response.cpp:17-48 | a reader that splits the status line at its spaces and finds the end of a message by its one Content-Length, names compared without case, recovers version, code and reason phrase, exact fields, exact body (even one with CRLF CRLF in it) and what follows, for every traversal order |
| `ResponseFraming.OrderDoesNotMatter` | src/http/http_response.cpp:27-32 | two traversal orders print the same set of fields |
| `FileServer.ReadRange` | src/server/server.cpp:128-170 | the range locals after the header has been read |
| `FileServer.HandleHttpRequest` | src/server/server.cpp:99-209 | the response object after the call, for every outcome of the file lookup |
| `FileServer.PartServed` | src/server/server.cpp:171-193 | an ordered part is served exactly, under a 206 whose Content-Range, read independently, says so; `end - start + 1` does not wrap |
| `FileServer.WholeServed` | src/server/server.cpp:128-202 | without a usable Range the whole file is served, the empty one included |
| `FileServer.OtherAnswers` | src/server/server.cpp:113-178 | what forbidden, missing, broken and unreadable paths get |
| `FileServer.IntRangeConformsIff` | src/server/server.cpp:138-193 | for numerals of any size, `bytes=a-b` is answered in a way RFC 9110 allows if and only if the file is empty, or a < 2^64 and a <= b or a is past the end |
| `FileServer.ReversedRange` | src/server/server.cpp:171-178 | what a reversed range gets instead |
| `FileServer.HugeRangeServesTheFile` | src/server/server.cpp:143-151 | an instance: the range from 2^64 to 2^64 + 1 of ten bytes gets a 206 with all ten, which RFC 9110 does not allow |
| `FileServer.OpenRangeConformsIff` | src/server/server.cpp:138-193 | `bytes=a-` is answered in a way RFC 9110 allows if and only if a < 2^64 or the file is empty |
| `FileServer.SuffixRangeConformsIff` | src/server/server.cpp:138-193 | for every n, `bytes=-n` is answered in a way RFC 9110 allows if and only if the file is nonempty and has at most n bytes, or is empty and n is 0 |
| `FileServer.ResumeRebuilds` | src/server/server.cpp:128-193 | adjacent ranges, cut anywhere, are all served and concatenate to the file |
| `HttpConn.HttpConn.HandleWrite` | src/http/http_conn.cpp:57-93 | every outcome of one write, one that takes nothing included: the bytes taken go to the wire in order, the rest stays pending, and the connection is armed, closed or left |
| `HttpConn.HttpConn.HandleRead` | src/http/http_conn.cpp:12-55 | renews the connection's own timer and no other, and every outcome of one read: nothing, close, waiting for more, 400, the handler's answer, or a call that does not return |
| `HttpConnTheorems.BytesConserved` | src/http/http_conn.cpp:57-93 | under any reads, short writes, errors and timeouts, bytes on the wire followed by pending bytes are all printed responses in order |
| `HttpConnTheorems.ClosesIff` | src/http/http_conn.cpp:57-93 | it closes exactly on end of stream, error condition, timeout, failed write, or when every byte of every response has gone out |
| `HttpConnTheorems.ArmedIff` | src/http/http_conn.cpp:63-87 | over every run an open connection is armed for writing exactly when a write has taken some of its bytes |
| `HttpConnTheorems.HandlerIsGiven` | src/http/http_conn.cpp:37-47 | the handler gets a response with code 200 and the client's wish to keep the connection alive; without a handler the answer is a 404 |
| `HttpConnTheorems.ClientReadsReplies` | src/http/http_response.cpp:17-48 | a client reading messages off printed replies reads them all back in order, and nothing else |
| `RequestDelivery.StuckInBody` | src/http/http_request.cpp:74-79 | the parser gets stuck in a body only after a Content-Length, and more bytes leave it stuck or done |
| `RequestDelivery.BeginningWaits` | src/http/http_request.cpp:30-62 | a beginning of a request leaves the parser waiting: neither done, nor in error, nor stuck |
| `RequestDelivery.RequestArrives` | src/http/http_conn.cpp:22-53 | on a connection between two requests, a request, already there or cut into reads in any way with any other events in between, reaches the handler once, at the first read that lets the parser see all of it, with exactly its fields and its body |
| `RequestDelivery.OneRequestOneResponse` | src/http/http_conn.cpp:12-93 | from end to end: it gets exactly one response, the handler's, whose bytes go out behind those of earlier responses whatever short writes come between its reads or follow |
| `RequestDelivery.RequestsInOrder` | src/http/http_conn.cpp:12-93 | any number of requests on one connection, pipelined or not, with writes and other events anywhere, are answered in order, each once; one that came in behind another at the next read that brings a byte |
| `RequestDelivery.CompleteAnsweredIff` | src/http/http_conn.cpp:22-53 | whatever happens, a request complete in the unread bytes is answered if and only if a later read brings anything |
| `RequestDelivery.PipelinedStarves` | src/http/http_conn.cpp:22-53 | a run for any two requests in one read: the second is never answered if no byte follows, and the connection is closed once the first answer has gone out |
| `RequestDelivery.AnswerStalls` | src/http/http_conn.cpp:88-92 | a run in which an answer's first write takes nothing: the connection stays open with all of it pending, and is not armed |
| `RequestErrors.BadLineAnsweredIff` | src/http/http_conn.cpp:27-33 | a malformed request or header line, whatever part of it had come in before, gets its 400 if and only if no further line end has come in with it; otherwise the read never returns |
| `RequestErrors.BadLineCloses` | src/http/http_conn.cpp:27-33 | that 400 goes out behind earlier answers, and the connection is closed exactly if the write fails or takes everything |
| `RequestErrors.FirstLineRefused` | src/http/http_response.cpp:17-48 | to the letter: the bytes of the 400 that a first line without spaces gets |
| `RequestErrors.ReadsHang` | src/http/http_conn.cpp:22-25 | any bytes that get the parser stuck, cut into reads in any way with any events in between, end in a read that does not return, unless the connection is closed before, for a stated reason; until then there are nothing but 400s, and no answer at all if it is a body |
| `RequestErrors.EarlyLineEndHangs` | src/http/http_request.cpp:64-79 | so does a body with a line end in a part of it that comes in before the whole, without any answer; no read closes the connection before |
| `RequestErrors.BadHeaderHangs` | src/http/http_request.cpp:107-112 | a complete request with a malformed header line ends in a read that does not return, however it is cut into reads, unless the connection is closed before, as by a 400 that has gone out in full; until then there are nothing but 400s |
| `FileDelivery.ContentRangeIff` | src/http/http_conn.cpp:38-50 | over every run an answer carries a Content-Range if and only if it is a 206 or 416 or an earlier answer on the connection was |
| `FileDelivery.StaleContentRange` | src/http/http_conn.cpp:38-50 | for any file and range, a run in which a whole file under 200 carries the Content-Range of the part sent before |
| `FileDelivery.AnswerPlain` | src/server/server.cpp:99-209 | the server's answers keep every header field free of line breaks, and none of them says where the message ends |
| `FileDelivery.ClientReadsRun` | src/http/http_conn.cpp:12-93 | whatever a client sends to a file server, and however reads and writes go, the bytes out and pending read back as exactly the replies |
| `FileDelivery.FileDelivered` | src/server/server.cpp:128-202 | from the request to the client, for the first or a later request: it ends with a message that delivers the file, or exactly the part that its `bytes=a-b` or `bytes=a-` asks for by RFC 9110 with its Content-Range, both with their Content-Type; or a 416 that tells the length |
| `FileDelivery.RefusalDelivered` | src/server/server.cpp:107-181 | a path that is no readable file ends with a 403, 404 or 500 |
| `FileDelivery.ConnectionAnnounced` | src/server/server.cpp:200-200 | the client reads keep-alive exactly if it asked for it |
| `FileDelivery.ExampleDelivered` | src/server/server.cpp:138-202 | to the letter: what a client reads that asks for four bytes of ten |
| `GameRules.EnemyAfterHits` | src/planewar/src/ui/Game.java:301-314 | with bullets only, each enemy loses as many points, in 32-bit arithmetic, as bullets find it first on the initial field |
| `GameRules.HealthPaysForBulletsIff` | src/planewar/src/ui/Game.java:301-314 | total health lost equals bullets used up if and only if no enemy is hit more often than its health is above the smallest integer |
| `GameRules.BornDeadRevives` | src/planewar/src/ui/Game.java:309-309 | an enemy at the smallest integer, hit once, is left with the greatest |
| `GameRules.BoomsBlastExactly` | src/planewar/src/ui/Game.java:315-324 | booms leave every enemy they touch at -1 but the white ones, and no other enemy changes |
| `GameRules.HitsTouchOnlyHealth` | src/planewar/src/ui/Game.java:214-223 | nobody moves or vanishes in the hits, booms all fly on, no bullet is made up |
| `GameRules.ShotByIffNear` | src/planewar/src/object/FlyingObject.java:30-35 | a bullet hits an enemy that is nearer than the enemy is wide and high |
| `GameRules.FlightEnds` | src/planewar/src/object/Enemy.java:22-28 | where enemies, bullets and booms are after any number of frames, and when they are out of bounds |
| `GameRules.PauseForEver` | src/planewar/src/ui/Game.java:94-143 | a pause lasts for ever |
| `GameRules.PaintedFits` | src/planewar/src/ui/Game.java:421-430 | after a repaint there are at most nine lives and nine spells |
| `GameRules.SweepPartitions` | src/planewar/src/ui/Game.java:254-280 | every enemy is kept, killed or escaped, exactly one of the three |
| `Game.Game.CheckHit` | src/planewar/src/ui/Game.java:301-325 | the enemies after one bullet or boom, and whether it flies on |
| `Game.Game.HitAction` | src/planewar/src/ui/Game.java:214-223 | the enemies and bullets after all of them in turn |
| `Game.Game.SweepObjects` | src/planewar/src/ui/Game.java:254-280 | the survivors stay in order, and score, power, spells and health grow by the rewards of exactly the dead |
| `Game.Game.OutOfBoundsAction` | src/planewar/src/ui/Game.java:250-293 | the survivors, rewards and player of a sweep, and the ledger is kept; killed, escaped and survivors are the three parts of the field |
| `Game.Game.IsGameOver` | src/planewar/src/ui/Game.java:336-347 | at most one life is lost, exactly when some enemy touches the player, and it clears the field |
| `Game.Game.PaintScore` | src/planewar/src/ui/Game.java:421-430 | lives and spells above nine are cut off the player itself, and the ledger counts the lives |
| `Game.Game.Frame` | src/planewar/src/ui/Game.java:176-184 | a frame moves, fires, strikes, sweeps and tests for touches exactly as the rules say; it keeps the ledger, loses at most one life and ends the game exactly with the last one |
| `Game.Game.KeyPressed` | src/planewar/src/ui/Game.java:94-143 | what each key does on each screen, to the screen, the trigger, the booms and a new game |
| `Game.Game.Play` | src/planewar/src/ui/Game.java:94-188 | every run of frames, repaints and keys leads where the rules lead, and the ledger holds: spawned = alive + killed + escaped + cleared, score = the sum of payouts, lives = 3 + white kills - deaths - lives cut off by painting, over exactly at zero lives |

## Left out

- Memory orders: all atomic accesses are sequentially consistent; acquire, release and cache lines are not modelled.
- `LockFreeQueue::size` and `count`: unused.
- The queue destructor, and moves that throw.
- LockFreeQueue.LockFreeQueue.Enqueue: counters are unbounded there and other threads take finitely many steps during the call; `QueueWrap` covers words, `QueueProgress` unbounded interference.
- LockFreeQueue.LockFreeQueue.Dequeue: the same.
- The logger, the thread pool, the server's two maps and the connection's destructor, which several threads update in place, are components of a state that steps transform, not fields of objects with threads of their own.
- Log levels, formatting, rotation and the synchronous path; the log file is taken to be open and to accept every write.
- ThreadPool.PoolRunInv: `enqueue` on a stopped or full pool throws in the program; here it is a submitter that makes no call, or whose call returns false. The capacity argument of the pool is ignored by the program and here; a worker keeps its last task object alive until its next `dequeue`, which is not modelled.
- HeapTimer.HeapTimer.Tick: other threads make the server's calls, with its one timeout, and finitely many during the call; callbacks only cancel.
- HeapTimer.HeapTimer.GetNextTick: the same.
- The server's unlocked reads of `users_` and stale channel pointers: each access is atomic and each event's descriptor is given. `operator[]` inserting an empty entry is modelled.
- Epoll itself: registration, edge triggering and one-shot re-arming. In particular nothing here says that a connection that has read part of a request, or whose first write would block, is woken again.
- A descriptor number of 0 returned by accept ends the accept loop in the program; here it is not accepted.
- Path canonicalisation, the MIME table, the document root: the lookup's result is a parameter. `index.html` for `/` belongs to it.
- FileServer.WholeServed: the file has at most 2^63 - 1 bytes, the longest string the library can build; a longer one is answered by 500.
- `HttpRequest::get_range`: not called by the server.
- Exceptions out of a handler or an allocation, other than those `HandleHttpRequest` catches.
- Bytes are characters, and the wire is a sequence of them.
- `Buffer::Append` of a buffer to itself, `RetrieveUntil`, `RetrieveAllToStr`, `WriteFd` and the pointer accessors: the server calls none of the first four.
- The connection's `is_keep_alive_` is never set in the program; its branch is modelled but not reached.
- ResponseFraming.ResponseRoundTrip: codes have three digits, header names no colon, CR or LF, values no CR or LF, and no name is Content-Length or Transfer-Encoding, since the serialiser does not check any of it. The reader does not know the messages that have no body by their status or by the request's method; the server sends none.
- RequestTheorems.RequestRoundTrip: keys are distinct, free of colons and not Content-Length, and there is no CRLF inside.
- RequestDelivery.RequestsInOrder: a run goes on after the connection has asked to be closed, as tasks under way may; the statement then covers more events than the program handles. A read that brings a line end behind the head of a request whose announced body is not there yet does not return (`RequestErrors.EarlyLineEndHangs`), so no such read is part of an answered request.
- The game's enemies are values in a sequence: the program updates each through its one reference, and no enemy is in two places. The score is unbounded.
- Spawn times, kinds, positions and speeds are arbitrary: random choice and the floating-point formulas of `isSpawnEnemy` and `nextOne`.
- The player's movement is an arbitrary displacement; which keys cause it is not modelled.
- Painting, but for what it writes to the player, and images.
- `test/server_test.cpp`: a separate echo server.
