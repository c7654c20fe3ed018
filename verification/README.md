# NetPulse: a verified model

NetPulse is an epoll server for length-prefixed frames. Its event loop decodes
frames from non-blocking sockets, hands them to a pool of workers through a
bounded queue, is told of results through an eventfd, and writes the responses
back to the connection they belong to. This project models both halves and
proves what they promise, for every input and every interleaving.

**Framing.** `Wire` defines the format (`Encode`, `Parse`) and proves that the two
undo each other and that parsing does not depend on how a stream is cut.
`FrameDecoding`, `FrameWriting`, `Connections`, `Io` and `Frame` model the classes
and loops of the source, with read and write offsets, compaction, short transfers,
EINTR and EAGAIN, and prove each against that format. `Kernel.Socket` answers every
system call from a finite script; a used-up script answers EAGAIN. From the script
alone `Arriving` and `Room` say how many bytes a transfer can move and `RecvStop` and
`SendStop` what ends it; every transfer is proved to go exactly that far.

**Pipeline.** `ThreadPoolModel` is the queue and its workers as a step system: one
step for each critical section, and one for each thing that happens between two of
them (`notify_one` after the unlock, `close` after the exchange of `stopped_`,
spurious wakeups). `ThreadPoolSafety`, `ThreadPoolTheorems` and
`ThreadPoolLiveness` prove its invariants, what they mean, and what happens
eventually under weak fairness. `ConnectionTables` and `EventLoops` model the
loop's own data and handlers. `ServerModel` puts loop, dispatcher, pool and kernel
tables together; `ServerSafety` and `ServerConservation` prove the invariant of
every run; `ServerTheorems` states what a client may rely on; `ServerAccounting`
counts frames; `SingleWorker` adds order for a pool of one; `LoopRefinement` ties the
handlers as written to the step system, in both directions; `ServerLiveness` shows that
in every fair run every accepted frame is answered.

The number of workers, the capacity of the queue, the number of connections, the
length of a run and the business logic (`Responder`, any total function) are all
left open. Histories (`accepted`, `ran`, `hist`, and the ghost fields of the
classes) record what happened and decide nothing.

Two observations about the source, each with its exact condition.
`Connection::readAvailable` may be called again after it has reported a protocol
error; each such call appends whatever it receives, and a call that receives nothing
does not repeat the error. The undecoded bytes are bounded over all calls exactly if
the first one does not start behind an oversized header
(`Connections.BoundedIffWellFormed`); the event loop never makes a call that does
(`ServerTheorems.DeadArms`). A compaction of the write buffer has no threshold: what
it shifts exceeds every multiple of the bytes accepted and sent
(`FrameWriting.Unamortised`), and stays within k times the bytes sent exactly if
nothing is enqueued behind more than k unsent bytes (`FrameWriting.CompactionCost`).

## Model

| member | source | states |
|---|---|---|
| Wire.Header | src/protocol/frame.cpp:50-61 | byte i of the header of n, counted from the front, is n / 256^(3-i) mod 256, and the four bytes read back as n |
| Wire.HeaderOfBigEndian | src/protocol/frame_decoder.cpp:39-48 | every four bytes are the header of the number they stand for when the first byte weighs most, and that is the number read |
| Kernel.RecvScript | src/network/io.cpp:75-119 | data and EINTR in any number are passed over; the first other outcome is what stops a transfer, and nothing behind it counts |
| Kernel.SendScript | src/network/io.cpp:15-58 | the same for sending, where room for zero bytes stops a transfer with EPIPE |
| Wire.FirstFrameIffEncoded | src/protocol/frame_decoder.cpp:30-87 | the decoder finds payload p at the front of a buffer if and only if the buffer starts with the encoding of p |
| Wire.ParseAppend | src/protocol/frame_decoder.cpp:21-87 | parsing a ++ b is parsing a, then what a left with b behind it |
| Wire.ParseSound | src/protocol/frame_decoder.cpp:30-87 | every input is the encodings of its frames followed by a rest in which no frame is complete |
| Wire.ParseUnique | src/protocol/frame_decoder.cpp:30-87 | the parse is the only such decomposition, in both directions |
| Wire.TooLargeIsFinal | src/protocol/frame_decoder.cpp:50-55 | behind an oversized header no later byte ever yields a frame |
| Wire.PrefixDecodesToPrefix | src/protocol/frame_write_buffer.cpp:14-56 | any prefix of printed frames parses to a prefix of them without error, and to all of them exactly when it is the whole |
| Io.SendAll | src/network/io.cpp:8-66 | sends the smaller of the data and the room the socket has before it refuses for another reason than EINTR; completed if and only if that is all the data; otherwise that reason is the status and the error number |
| Io.ReceiveExact | src/network/io.cpp:68-127 | fills the buffer with all that arrives before the first outcome that is neither data nor EINTR; completed if and only if that is enough; otherwise that outcome is the status and the error number; the rest of the buffer is untouched, and what was not taken is still to come |
| Frame.ToFrameStatus | src/protocol/frame.cpp:12-32 | the four ends of a transfer are told apart one to one, and none of them reports an oversized frame |
| Frame.SendFrame | src/protocol/frame.cpp:36-81 | the two transfers end like one of the whole encoding: the wire gets as much of it as the socket has room for, and what stopped it short is the status and the error number; an oversized payload sends nothing |
| Frame.ReceiveFrame | src/protocol/frame.cpp:83-135 | the incremental decoder's decision on all that arrives is the status: the frame with exactly its encoding taken, or the oversized header with exactly the header taken, or everything taken, the partial payload in a zeroed vector, and the outcome that stopped it as status and error number |
| FrameDecoding.FrameDecoder.Append | src/protocol/frame_decoder.cpp:21-28 | the undecoded bytes grow by the data and the bounds on space and shifting stay |
| FrameDecoding.FrameDecoder.DecodeNext | src/protocol/frame_decoder.cpp:30-87 | decides by the undecoded bytes alone, takes off exactly the encoding of the frame returned, and counts as shifted what an erasure leaves in the buffer |
| FrameDecoding.FrameDecoder.BufferedBytes | src/protocol/frame_decoder.cpp:89-93 | the number of undecoded bytes |
| FrameDecoding.FrameDecoder.Compact | src/protocol/frame_decoder.cpp:101-127 | keeps the undecoded bytes, counts as shifted what an erasure leaves in the buffer, and restores: offset < 4096 or < size / 2, and 4096 * shifted <= 4097 * (consumed - offset) over the decoder's whole life |
| FrameDecoding.FrameDecoder.Valid | src/protocol/frame_decoder.cpp:101-127 | between calls the size is at most the undecoded bytes plus 4095, or less than twice them, and 4096 times the bytes ever shifted is at most 4097 times the bytes ever consumed |
| FrameDecoding.FrameDecoder.Clear | src/protocol/frame_decoder.cpp:95-99 | forgets the undecoded bytes and keeps the bounds |
| FrameWriting.FrameWriteBuffer.Enqueue | src/protocol/frame_write_buffer.cpp:14-56 | appends the payload's encoding to the pending bytes, or nothing if and only if the payload is oversized; shifts the pending bytes if and only if sent ones lie in front of them |
| FrameWriting.FrameWriteBuffer.Flush | src/protocol/frame_write_buffer.cpp:58-117 | under any script the wire gets the front of the pending bytes and the buffer keeps the rest; drained if and only if the socket has room for all of them; otherwise would_block if and only if EAGAIN stops it and error if and only if anything else does, with that error number |
| FrameWriting.FrameWriteBuffer.Empty | src/protocol/frame_write_buffer.cpp:119-122 | true if and only if no byte is pending |
| FrameWriting.FrameWriteBuffer.PendingBytes | src/protocol/frame_write_buffer.cpp:124-128 | the number of pending bytes |
| FrameWriting.FrameWriteBuffer.Clear | src/protocol/frame_write_buffer.cpp:130-134 | nothing stays pending and the buffer is empty |
| FrameWriting.SendingMovesBytes | src/protocol/frame_write_buffer.cpp:63-78 | advancing the offset by what was sent neither loses, repeats nor reorders a byte |
| FrameWriting.FrameWriteBuffer.Compact | src/protocol/frame_write_buffer.cpp:136-154 | the buffer becomes exactly the pending bytes, which are shifted unless none or all of the buffer is pending |
| FrameWriting.CompactionCost | src/protocol/frame_write_buffer.cpp:14-22 | over every use at most k bytes are shifted for each byte sent if and only if no frame is enqueued behind more than k unsent bytes (at k = 1, two) |
| FrameWriting.Unamortised | src/protocol/frame_write_buffer.cpp:136-154 | without such a guard there is no bound: for every factor some use shifts more than that many bytes for each byte ever accepted or sent |
| Connections.Connection.ReadAvailable | src/server/connection.cpp:26-109 | all frames ever returned are the parse of all bytes ever received; a protocol error if and only if the parse of what arrives stands at an oversized header, and then no chunk is taken beyond the one that shows it; otherwise everything that arrives is taken, and the status is peer_closed if and only if the end of the stream, ready if and only if EAGAIN, and io_error with its number if and only if another failure stops it; from a stream that is not broken the decoder never exceeds 2 * (2^20 + 3) + 4096 bytes |
| Connections.Connection.Decode | src/server/connection.cpp:49-80 | one chunk behind the undecoded bytes yields the frames of their parse and leaves its rest |
| Connections.Connection.QueueFrame | src/server/connection.cpp:111-116 | sent ++ pending stays the encoding of the payloads accepted, in order |
| Connections.Connection.FlushWrites | src/server/connection.cpp:118-122 | sent ++ pending stays the encoding of the payloads accepted; the front of the pending bytes for which the socket has room is sent; drained, would_block and error as for the buffer |
| Connections.Connection.WantsWrite | src/server/connection.cpp:124-127 | true if and only if bytes are pending |
| Connections.ChunkingIndependent | src/server/connection.cpp:26-109 | cutting the same bytes elsewhere, or into another number of calls, changes neither frames nor rest |
| Connections.ProtocolErrorIsFinal | src/server/connection.cpp:69-77 | after an oversized header no call returns a frame, and a call reports the error exactly when it receives something |
| Connections.ReadIsCall | src/server/connection.cpp:26-109 | the contract of a read implies the relation over which the next row quantifies |
| Connections.BoundedIffWellFormed | src/server/connection.cpp:42-77 | over all sequences of reads the undecoded bytes stay below 2^20 + 3 + 4096 (or any larger limit) if and only if the first one did not start behind an oversized header, for callers that stop at the protocol error |
| Connections.PeersAgree | src/protocol/frame_write_buffer.cpp:14-117 | a connection that has read any part of what another wrote holds a prefix of the payloads queued there, and all of them exactly when all is flushed and read |
| BoundedQueues.BoundedQueue.TryPush | include/netpulse/concurrency/bounded_queue.hpp:38-58 | appends if and only if the queue is neither closed nor full |
| BoundedQueues.BoundedQueue.Pop | include/netpulse/concurrency/bounded_queue.hpp:60-80 | takes the oldest element, or ends exactly when closed and empty, or waits |
| BoundedQueues.BoundedQueue.Close | include/netpulse/concurrency/bounded_queue.hpp:82-90 | closes and keeps the elements |
| BoundedQueues.NewQueue | include/netpulse/concurrency/bounded_queue.hpp:24-33 | refuses exactly the capacity zero |
| ThreadPoolSafety.StepInv | src/concurrency/thread_pool.cpp:54-134 | every step of every thread keeps: the queue is the untaken suffix of the accepted tasks; each taken task has acted or is held by one worker; no lost wakeup; the order of events in a stop |
| ThreadPoolSafety.RunInv | src/concurrency/thread_pool.cpp:54-134 | the invariant holds after any interleaving |
| ThreadPoolSafety.WakeupStep | include/netpulse/concurrency/bounded_queue.hpp:38-80 | while a worker sleeps, the queue is no longer than the notifications in flight plus the workers about to look |
| ThreadPoolSafety.StopStep | src/concurrency/thread_pool.cpp:80-96 | the queue is closed exactly after the exchange and the close; workers joined so far have left; who left found it closed and empty |
| ThreadPoolTheorems.PushOutcome | include/netpulse/concurrency/bounded_queue.hpp:38-58 | a submission is accepted exactly when the queue is open and has room, goes to its end, and one notification follows |
| ThreadPoolTheorems.CheckOutcome | include/netpulse/concurrency/bounded_queue.hpp:60-80 | a worker that looks takes the oldest task not yet taken, leaves exactly when the queue is closed and empty, and otherwise sleeps |
| ThreadPoolTheorems.NoLostWakeup | include/netpulse/concurrency/bounded_queue.hpp:38-80 | with work queued and no notification in flight some worker is awake, and if one sleeps another is about to look |
| ThreadPoolTheorems.NoSleepAfterClose | include/netpulse/concurrency/bounded_queue.hpp:82-90 | once closed, a worker sleeps only while the notification of all is in flight |
| ThreadPoolTheorems.TakenIsRanOrHeld | src/concurrency/thread_pool.cpp:113-134 | a task that left the queue has acted or is in the hands of a worker |
| ThreadPoolTheorems.BoundedOvertaking | src/concurrency/thread_pool.cpp:113-134 | when a task acts, at most worker count - 1 tasks accepted before it have not |
| ThreadPoolTheorems.BoundedInFlight | include/netpulse/concurrency/bounded_queue.hpp:38-80 | accepted minus acted is at most capacity + worker count |
| ThreadPoolTheorems.SingleWorkerInOrder | src/concurrency/thread_pool.cpp:113-134 | with one worker tasks act in the order of their acceptance |
| ThreadPoolTheorems.StopDrains | src/concurrency/thread_pool.cpp:80-96 | when a stop returns all workers have left, the queue is empty and every accepted task has acted exactly once |
| ThreadPoolTheorems.NothingAfterStop | src/concurrency/thread_pool.cpp:54-96 | afterwards no submission succeeds and no task acts |
| ThreadPoolTheorems.DrainingShutdown | src/concurrency/thread_pool.cpp:54-134 | both, for any run from the start and any continuation |
| ThreadPoolLiveness.DrainingStep | src/concurrency/thread_pool.cpp:80-96 | after the close every step but a refused submission decreases a measure of queue, workers and joins |
| ThreadPoolLiveness.Urgent | src/concurrency/thread_pool.cpp:89-95 | until the stop returns some fair step is possible |
| ThreadPoolLiveness.StopReturns | src/concurrency/thread_pool.cpp:80-96 | in every fair run every stop that holds the mutex returns |
| ThreadPoolLiveness.HeadTaken | include/netpulse/concurrency/bounded_queue.hpp:38-80 | in every fair run the head of a non-empty queue is taken |
| ThreadPoolLiveness.EveryTaskActs | src/concurrency/thread_pool.cpp:113-134 | in every fair run every accepted task acts |
| EventFds.EventFd.Notify | src/network/event_fd.cpp:71-122 | succeeds, and then adds the value, if and only if descriptor and value are valid, nothing but interruptions hinders the write and the counter can take it; EAGAIN exactly when unhindered and too full; EINVAL, EBADF, EIO and other failures told apart |
| EventFds.EventFd.Consume | src/network/event_fd.cpp:124-171 | succeeds, and then takes the whole counter, if and only if the descriptor is valid, nothing but interruptions hinders the read and the counter is positive; EAGAIN exactly when unhindered and zero |
| Dispatching.ProcessingDispatcher.TrySubmit | src/server/processing_dispatcher.cpp:49-72 | invalid exactly for a negative descriptor or id 0; otherwise stopped exactly when a failure is recorded or the queue closed, full exactly when open and full, and submitted, at the end of the queue, exactly when neither |
| Dispatching.ProcessingDispatcher.PushCompleted | src/server/processing_dispatcher.cpp:110-116 | the result is stored behind those already there |
| Dispatching.ProcessingDispatcher.NotifyCompleted | src/server/processing_dispatcher.cpp:118-131 | the first failure that is not a full counter is recorded and stays; an unhindered notification leaves the record alone and counts up to the maximum; afterwards the counter is positive or an error is recorded |
| Dispatching.ProcessingDispatcher.TakeCompleted | src/server/processing_dispatcher.cpp:81-103 | returns all stored results in order and leaves none |
| ConnectionTables.AcceptedInv | src/server/event_loop.cpp:230-286 | a new descriptor is never in the map; accepting keeps ownership, distinct increasing ids, registrations and interest, also when epoll refuses |
| ConnectionTables.DispatchedOutcome | src/server/event_loop.cpp:392-450 | a result touches only the connection with its descriptor and its id, which gains exactly the encoded response or is closed exactly when that is oversized or epoll refuses |
| ConnectionTables.DispatchedInv | src/server/event_loop.cpp:392-450 | dispatching keeps map, descriptors and epoll in agreement, with output armed exactly when some is pending |
| ConnectionTables.FlushedOutcome | src/server/event_loop.cpp:567-592 | the end of a client event keeps the connection exactly when write and epoll succeed, and takes off exactly the bytes sent |
| ConnectionTables.FlushedInv | src/server/event_loop.cpp:567-625 | after the flush the interest is again armed exactly when output is pending |
| EventLoops.EventLoop.AcceptReadyClients | src/server/event_loop.cpp:218-310 | handles every answer up to the first failure that is not EINTR: the next id grows by the number of new clients, each one epoll takes is in the map under its id, the clients before stay, nobody else joins; fails if and only if that failure is not EAGAIN, with its number |
| EventLoops.EventLoop.AcceptOne | src/server/event_loop.cpp:230-286 | one accepted descriptor, arm by arm: the id is used up even when the socket is closed again |
| EventLoops.EventLoop.HandleProcessingResults | src/server/event_loop.cpp:360-453 | consumes the counter and then dispatches every result, or changes nothing; fails if and only if the counter cannot be read, with EBADF, EIO or the failure's own number; a zero counter is no failure |
| EventLoops.EventLoop.DispatchResults | src/server/event_loop.cpp:392-450 | dispatches the results in order and keeps the table invariant |
| EventLoops.DispatchesOutcome | src/server/event_loop.cpp:388-452 | after a batch a client is there if and only if it was, no response for it was too long and epoll refused behind none; its output has grown by the encodings of the responses for it, in order |
| EventLoops.EventLoop.DispatchOne | src/server/event_loop.cpp:392-450 | an unknown or stale result changes nothing; one for a client appends its encoding, or closes the client if and only if it is too long or epoll refuses |
| EventLoops.EventLoop.HandleClientEvent | src/server/event_loop.cpp:455-593 | calls the connection and the dispatcher: the queue gains the frames of the read up to the first refusal; the client stays if and only if it did not hang up, all frames were accepted, the stream is not broken, the read was stopped by EAGAIN and the write, if at all, too, and epoll takes the interest; the map's value stays what the connection object holds |
| EventLoops.EventLoop.SubmitFrames | src/server/event_loop.cpp:495-525 | the queue gains exactly the first frames for which it has room, in order, or none; a frame is refused if and only if the task is invalid, a failure is recorded, the queue is closed or it has too little room |
| EventLoops.EventLoop.ReadClient | src/server/event_loop.cpp:489-565 | a read with its submissions; the connection stays exactly when all frames were accepted and the read ended in the usual way |
| EventLoops.ClientEventInv | src/server/event_loop.cpp:455-593 | a client event keeps map, descriptors, registrations and interest in agreement |
| EventLoops.EventLoop.FinishClientEvent | src/server/event_loop.cpp:567-592 | flushes when there is output, as far as the socket has room, closes when write or epoll fails, and otherwise updates the interest |
| EventLoops.EventLoop.UpdateInterest | src/server/event_loop.cpp:595-625 | arms output exactly when some is pending, unless epoll refuses |
| EventLoops.EventLoop.CloseConnection | src/server/event_loop.cpp:627-669 | removes the connection, its descriptor and its registration together |
| EventLoops.SurvivesIff | src/server/event_loop.cpp:455-593 | a client survives an event if and only if none of the listed failures occurs, and no event touches another client |
| ServerSafety.PoolProjection | src/server/processing_dispatcher.cpp:66-71 | a step of the server is a step of the pool or leaves it alone |
| ServerSafety.NotifyStepInv | src/server/processing_dispatcher.cpp:110-132 | stored results stay announced, about to be announced or about to be taken, or an error is recorded |
| ServerSafety.HistStepInv | src/server/event_loop.cpp:392-593 | on every connection frames are the parse of the bytes received, and sent ++ pending the encoding of its responses, at every step |
| ServerSafety.LoopStepInv | src/server/event_loop.cpp:474-593 | the loop works only on connections that are there, and a broken stream is never read again |
| ServerSafety.AddressStepInv | src/server/processing.cpp:18-39 | every task and result in flight carries the descriptor its connection had |
| ServerConservation.Flow | src/server/processing_dispatcher.cpp:66-132 | a result in flight moves on without being lost or doubled, except where it is enqueued or dropped |
| ServerConservation.LostOnlyWhenClosed | src/server/event_loop.cpp:394-444 | a result is dropped only when its connection is gone |
| ServerConservation.ConservationStepInv | src/server/event_loop.cpp:392-525 | every step keeps the conservation law |
| ServerConservation.RunServerInv | src/server/event_loop.cpp:112-210 | the whole invariant holds after any interleaving |
| ServerTheorems.Conservation | src/server/event_loop.cpp:392-525 | for every result of an open connection: owed = unsubmitted + queued + held by workers + stored + in the batch + enqueued; for a closed one at least that |
| ServerAccounting.FramesAccountedFor | src/server/event_loop.cpp:392-525 | frames decoded on an open connection = read but unsubmitted + queued + with workers + stored + in the batch + answered; on a closed one answers never exceed frames |
| ServerTheorems.NoLostNotification | src/server/processing_dispatcher.cpp:110-132 | a stored result implies a positive counter, a worker about to notify, a loop about to take, or a recorded error |
| ServerTheorems.TablesAgree | src/server/event_loop.cpp:230-274 | map keys, open client descriptors and registrations are the same; ids are distinct and below the next; output is armed exactly when pending |
| ServerTheorems.AnswersItsOwnFrames | src/server/event_loop.cpp:394-431 | the responses of a connection are a sub-multiset of the answers to its own frames, and all of them when it is open with nothing in flight |
| ServerTheorems.EndToEnd | src/server/event_loop.cpp:360-593 | frames = parse of bytes received; sent (++ pending while open) = encoding of the responses; a client that parses what was sent gets a prefix of them; they answer its own frames, each at most once, exactly once when nothing is in flight |
| ServerTheorems.NoCrossDelivery | src/server/event_loop.cpp:398-420 | every response on a connection answers a frame received on it, however descriptors are reused |
| ServerTheorems.StuckIffQuiet | src/server/event_loop.cpp:121-208 | no step of loop, workers or notification is possible if and only if the loop waits with the counter at zero, no notification is in flight and every worker sleeps or has left |
| ServerTheorems.StuckMeansServed | src/server/event_loop.cpp:121-208 | when no step is left that waits for nothing from outside, and no failure is recorded, nothing is stranded: queue and result list are empty and every open connection is fully answered and armed exactly if it has output left |
| ServerTheorems.DeadArms | src/server/event_loop.cpp:246-254 | no run reaches the duplicate-descriptor arm, the invalid-task arm (348-354) or a read of a broken stream |
| ServerTheorems.StoppedServer | src/server/processing_dispatcher.cpp:105-108 | after a returned stop nothing is accepted or published |
| ServerTheorems.BoundedReordering | src/server/processing_dispatcher.cpp:66-71 | when a result is stored at most worker count - 1 earlier submissions are without one; the backlog is at most capacity + worker count |
| Dispatching.Acknowledge | src/server/processing.cpp:12-14 | the response is the text ACK from NetPulse! byte for byte |
| ServerTheorems.OnlyAcknowledgements | src/server/processing.cpp:12-39 | with the shipped response a client sees only acknowledgements, never more than the frames received from it, and as many once it is open, idle and flushed |
| SingleWorker.OrderStepInv | src/server/processing_dispatcher.cpp:66-103 | with one worker, responses followed by everything on its way are the answers to the frames, in order, on every open connection; on a closed one the responses stay a prefix of them |
| SingleWorker.ResponsesInRequestOrder | src/concurrency/thread_pool.cpp:113-134 | with one worker the k-th response on a connection, open or closed, answers its k-th frame |
| LoopRefinement.AcceptsAreSteps | src/server/event_loop.cpp:218-310 | the accept loop is a run of the step system with exactly one step for each new client, in order |
| LoopRefinement.ConsumeIsStep | src/server/event_loop.cpp:364-386 | the consuming step is possible for exactly the results the notifier can give, and only a hard failure makes the loop return |
| LoopRefinement.DispatchesAreSteps | src/server/event_loop.cpp:388-452 | the dispatch loop is a run of the step system |
| LoopRefinement.ReadAvailableIsReadStep | src/server/event_loop.cpp:489-525 | the contract of the connection's read and the read step of the server allow the same outcomes, both ways |
| LoopRefinement.ClientEventIsSteps | src/server/event_loop.cpp:455-593 | the client handler, run alone, is a run of the step system that submits what the handler submits |
| LoopRefinement.ClientEventOfRun | src/server/event_loop.cpp:455-593 | in every run, with the workers' steps anywhere, from the start of a client event to the next wait the table changes as by the handler, for the answers met in that run, and the tasks accepted are exactly the frames it counts |
| LoopRefinement.ResultsOfRun | src/server/event_loop.cpp:388-452 | in every run, from the consumed counter to the next wait the table changes as by the dispatch loop over one batch that begins with all results stored before |
| ServerLiveness.ReachesWait | src/server/event_loop.cpp:142-208 | in every fair run the loop's thread comes back to its wait |
| ServerLiveness.CounterConsumed | src/server/event_loop.cpp:155-178 | in every fair run a positive counter is consumed, or the loop returns |
| ServerLiveness.Advances | src/server/event_loop.cpp:360-453 | in every fair run, while a published result is not dispatched another one is, or a failure is recorded, or the loop returns |
| ServerLiveness.EveryFrameAnswered | src/server/event_loop.cpp:360-453 | in every fair run every accepted frame's own result is dispatched, and then is the last response of its connection unless that is gone; or the notifier has failed, or the loop has returned |

## Left out

- Real system calls, errno as a thread-local, fcntl, logging and the wrappers `Epoll`, `Socket` and `setNonBlocking`: scripts, descriptor and registration tables stand for them.
- `apps/server/main.cpp`, `tools/device_simulator/main.cpp` and the build: plumbing.
- Mutexes and the condition variable as objects: a critical section is one atomic step, the condition variable is the set of waiting workers. `BoundedQueue` is a class for its critical sections; `ThreadPool` has no class of its own, because its operations block on other threads, and is the step system.
- `EventLoops.EventLoop.HandleClientEvent`: is given the `Connection` object its map entry stands for, because the map holds each connection by value (its id with its undecoded and pending bytes), so sharing of connection objects between entries is not captured; no worker moves while the method runs, `LoopRefinement.ClientEventOfRun` covers every interleaving.
- The batch of events one wait returns: the step system lets any event of any present descriptor happen at any time, which includes stale events for a reused descriptor.
- Wrap-around of `ConnectionId` at 2^64: ids are natural numbers, so fewer than 2^64 - 1 accepts are assumed.
- Integer width of sizes and offsets: they are unbounded; the length header alone is 32 bits wide.
- Failure to create a thread, an eventfd or an epoll instance, `stop` called from a worker, allocation failure and exceptions other than one thrown by a task.
- Order of responses with several workers beyond the overtaking bound, and an acknowledgement for every frame: a closed connection drops its results.
- That a frame which was read is also accepted: a full queue closes its connection, and fairness cannot prevent it. `ServerLiveness.EveryFrameAnswered` starts from acceptance, and takes the wait's reporting of a positive counter as a hypothesis, which the source does not control.
- Resuming `receiveFrame` after would_block: the source does not keep the partial bytes.
