# The skynet runtime, modelled and proved

This project models the C runtime under the game server — the skynet scheduler, sockets, timers and
handle table — and the index, arithmetic and codec code shipped with it, and proves what each of them is
for. `dafny verify dfyconfig.toml` checks all of it.

| Files | What they model |
|---|---|
| `MessageQueue.dfy`, `Scheduler.dfy`, `SchedulerInvariant.dfy`, `SchedulerTurn.dfy` | message queues, the global list, reference-counted contexts, workers and senders as a state machine; how long a worker's turn is and which queue is next |
| `SocketSend.dfy`, `SocketFlush.dfy`, `SocketWire.dfy`, `SocketOrder.dfy`, `SocketRuns.dfy`, `SocketProgress.dfy` | the write side of a TCP socket, what a flush sends, direct writes racing with the command pipe and with closing, and that everything accepted can be sent |
| `TimerWheel.dfy` | the hierarchical timing wheel against a plain list of timers |
| `ByteOrder.dfy`, `SkipListLinks.dfy`, `SkipListRanks.dfy`, `SkipList.dfy` | the skip list with spans against a sorted sequence |
| `Bigint.dfy`, `Digits.dfy` | big integers on word arrays and the correctly rounded digits of dtoa's mode 2 |
| `SharedTable.dfy` | the static hash of lua-sharedata |
| `HandleStorage.dfy` | the handle table and the sorted names |
| `RwLock.dfy` | the spin readers-writer lock |
| `Framing.dfy`, `Netpack.dfy`, `Gate.dfy`, `Harbor.dfy` | reassembly of framed streams |
| `SocketBuffer.dfy` | the socket's chain of buffers and its line reader |
| `SeriWire.dfy`, `SeriValues.dfy`, `Seri.dfy` | the Lua value serialiser: wire format, values, block chain |
| `DhCrypt.dfy` | modular exponentiation and the key exchange |

Code that updates fields, lists or arrays is a class or a method with loops, proved against a function or
a predicate on values; the theorems are about those. Protocols between threads are state machines whose
step is one lock-protected section, one atomic operation or one read; their theorems hold in every state of every
run, for any number of threads.

## Assumptions

- Scheduler: giving a new context its handle and its queue is one step; the creator's release and
  `init = true` are one step; a handle is not issued again while its old queue exists. What a service
  callback does (send, launch, retire) happens in activations of their own, which allows every nesting and
  more interleavings than the code has. Contexts and queues are named by addresses that are not used twice.
- Socket: the five reads of `can_direct_write`, without the lock and again with it, are made one by one in
  the order of the source, each of them atomic. A call of `write` takes some prefix, or fails, as it likes.
  The pipe is a FIFO of whole requests. A run begins when the slot is reserved; a caller has the id once the
  request to open the socket is in the pipe, so that one is served first.
  The socket id stays the same during a run. Counting in is the compare-and-swap that succeeds; a caller
  waits while the counter stands at 65535, as the code does.
- Timer: delays are C ints; requests that other threads make while `timer_execute` has released its lock
  are a parameter.
- Skip list: the level and the address of a new node are parameters; scores are reals, so no NaN; the
  lengths of two objects differ by less than 2^31, where the order of `compareslObj` is that of the lengths.
- dtoa: the inputs are the integers and exponents the double has been split into. Shifts are
  multiplications and divisions by powers of two. Words are 32 bits, intermediate results 64.
- Shared table: the integer keys of the table that is shared are C ints, keys looked up are any 64-bit
  integers; a key or value that is a string is the string itself.
- Handle table: each method is the section under its lock. No context registers during `RetireAll`.
- Netpack: the message handler returns before the next chunk arrives.
- Serialiser: at most 2^31-1 bytes are packed at a time. What Lua guarantees of its tables is assumed: no
  nil or NaN keys, doubles that equal an integer stored as that integer, every key once (tables count by
  identity), and a border `n > 0` with a value at `n`.

## Where the code differs from what it promises

- `force_close` frees the write lists before it takes the lock under which direct writes are made. Until then
  the socket looks open and empty, and a direct write may be made behind a message that has been written in
  part, or ahead of one that has not been written. `SocketRuns.TornRun` is a run in which both happen.
  `SocketRuns.WireIsWhole` says that wholeness is lost by such a write and by nothing else,
  `SocketRuns.NoOvertaking` that order is lost by such a write or in the case that follows. Closes inside
  `send_buffer` have the lock and do no harm.
- `socket_server_connect` returns the id of a slot that has only been reserved. Until `new_fd` has set its
  protocol, `inc_sending_ref` does not count a request, but `dec_sending_ref` takes a reference for it, so a send
  right behind a connect fails the assertion there (`SocketRuns.EarlyAborts`). `SocketRuns.AssertionHolds` says
  that it fails, in a run that serves all it posts, exactly if some call was not counted. Before it fails, a
  counter that is too small lets a direct write pass what is still in the pipe (`SocketRuns.EarlyOvertaken`).
- `slGetRank` does not compare scores when it meets the object. With unique objects it is right for every
  pair that is present. For an absent pair it is not 0 if and only if the object stands before the pair's
  place on a node taller than every node from there to that place (`SkipListRanks.RankIsRight`). Whatever
  heights are drawn it is 0 if and only if no element with that object has a smaller score
  (`SkipListRanks.NeverFoundIs`). `SkipList.RankOfAbsent` gives a list on which it is not 0.
- `skynet_handle_register` passes over slot 0 when its index wraps inside the pass, unless the index stands
  at 2^24 exactly and the table is smaller than that (`HandleStorage.PassLooksAt`). A pass then finds nothing
  although a slot is free if and only if slot 0 is the only free one and is passed over
  (`HandleStorage.Storage.PassMisses`; `HandleStorage.SlotZeroMissed` reaches such a state), and the code
  takes the handle of the empty slot while growing. `HandleStorage.Storage.Register` gives no handle in that
  state, and only in that one.
- The gate, with no broker, agent or watchdog, leaves a packet in the buffer and goes on reading its bytes
  as headers. `Gate.NobodyNeeded` says exactly for which streams that does no harm, `Gate.InStepAgain` exactly
  when the connection is in step all the same at the end of a chunk.
- The gate reads a four-byte length of 2^31 or more as a negative int, and then neither takes anything more
  off the connection nor closes it. For lengths from 16M to 2^31 it asks for the connection to be closed once
  the packet is complete, and empties the buffer; chunks that come before it is closed are parsed from there,
  at any point of the stream, and forwarded. `Gate.ReadAgain` gives such chunks, `Gate.ClosedInTime` the exact
  condition under which nothing is forwarded behind the close.
- `send_remote` sends messages that the other node's `push_socket_data` refuses. `Harbor.SentArrives` draws
  the line at 16M bytes with the cookie.
- `powmodp` returns P itself for a == P and b == 1, and the value below P in every other case.
- `slFirstInRange` and `slLastInRange` promise no node when no element is in the range. When the range falls
  in a gap, with elements on both sides and none inside, they return a neighbour (`SkipList.RangeInGap`), and
  only then (`SkipList.RangePromised`). `SkipList.List.ScoreRange` is right all the same: its loop checks the
  other end.
- `_get_rank_range` keeps the number of ranks in an int, so only the low 32 bits of it count, as a signed
  number. From a rank in the list the slice is right if and only if what is left of the count still covers the
  ranks there are to give (`SkipList.RankRangePromised`), as it does for every range of fewer than 2^31 ranks
  (`SkipList.ShortRangeIsRight`). `SkipList.RankRangeCut` gives a range that comes out empty and one that comes
  out short.
- `lua-sharedata` cuts an integer key to an int before it looks it up, so index 2^32 + 1 reads key 1. A key
  beyond the ints is read right if and only if the cut one has no value either (`SharedTable.WideKey`).


## Model

| member | source | states |
|---|---|---|
| `SchedulerInvariant.EveryRunIsSafe` | server/skynet/skynet-src/skynet_mq.c:43-250 | in every state of every run of any number of workers, senders and creators: each queue is in exactly one place, an idle queue is empty, no wake-up is lost, no service is entered twice, counts are exact, nothing dangles, histories are FIFO; and no assertion of the source fails |
| `SchedulerInvariant.StepKeeps` | server/skynet/skynet-src/skynet_server.c:115-351 | every step, one lock-protected section or atomic operation, keeps the inductive invariant over `in_global`, `release`, `ref`, list membership and frames (how far each gets: `SchedulerTurn`) |
| `SchedulerInvariant.RunInv` | server/skynet/skynet-src/skynet_server.c:296-351 | the invariant holds in every reachable state |
| `SchedulerInvariant.NeverStuck` | server/skynet/skynet-src/skynet_server.c:296-351 | whatever a thread has reached, the pointers its next step follows are live, so the step can be taken, also after a failed init (which step that is: `SchedulerTurn`) |
| `SchedulerInvariant.ZeroMeansUnreachable` | server/skynet/skynet-src/skynet_server.c:208-227 | a context whose count reaches zero is in no slot and no frame, and can be deleted |
| `SchedulerInvariant.HistoryGrows` | server/skynet/skynet-src/skynet_mq.c:137-250 | what a queue was pushed, dispatched or dropped is only ever extended |
| `SchedulerInvariant.FreedOnce` | server/skynet/skynet-src/skynet_mq.c:98-104 | a queue that has been freed never comes back to life, to the list or to a frame, and its record stays as it was |
| `SchedulerInvariant.PushKeeps` | server/skynet/skynet-src/skynet_mq.c:189-209 | the invariant survives a push, and a queue whose flag was down was not in the list already |
| `SchedulerInvariant.PopKeeps` | server/skynet/skynet-src/skynet_mq.c:137-172 | the invariant survives a pop, also the one that finds the queue empty and makes it idle, and the context is initialised |
| `SchedulerInvariant.TurnKeeps` | server/skynet/skynet-src/skynet_server.c:335-347 | the invariant survives swapping the queue for the next one, and the context still belongs to the queue |
| `SchedulerInvariant.DismissKeeps` | server/skynet/skynet-src/skynet_mq.c:239-250 | the invariant survives a release, whether the queue goes on to be freed or is listed again, and it was not in the list |
| `SchedulerInvariant.DeleteKeeps` | server/skynet/skynet-src/skynet_server.c:208-218 | the invariant survives deleting a context and marking its queue, which was not marked before |
| `SchedulerInvariant.CreateKeeps` | server/skynet/skynet-src/skynet_server.c:125-151 | the invariant survives a new context with its handle and queue, held by the creator |
| `SchedulerInvariant.FailRetireKeeps` | server/skynet/skynet-src/skynet_server.c:168-181 | the invariant survives the retirement after a failed init, also if the handle was retired before |
| `SchedulerInvariant.FreeKeeps` | server/skynet/skynet-src/skynet_mq.c:98-104 | the invariant survives freeing a queue, which is not in the list |
| `SchedulerTurn.TurnLength` | server/skynet/skynet-src/skynet_server.c:313-335 | over every run: between taking a queue and giving it up a worker dispatches exactly one message if its weight is negative, and otherwise as many as the queue was long after the first, divided by 2 to the weight, but at least one |
| `SchedulerTurn.TurnCut` | server/skynet/skynet-src/skynet_server.c:316-322 | a turn that ends because the queue was empty is shorter than that |
| `SchedulerTurn.ShiftedIs` | server/skynet/skynet-src/skynet_server.c:321 | a shift by the weight divides by that power of two |
| `SchedulerTurn.NextQueue` | server/skynet/skynet-src/skynet_server.c:335-347 | after a full turn, with a queue in the list, the worker's own goes to the end and the next it looks up is the one that was first; with an empty list it keeps its own and lists nothing |
| `SchedulerTurn.NextAfterEmpty` | server/skynet/skynet-src/skynet_server.c:317-319 | after a turn that found its queue empty, the next queue it looks up is the one that was first when it took one |
| `SchedulerTurn.WaitsItsTurn` | server/skynet/skynet-src/skynet_mq.c:43-75 | a queue with n others before it in the list is taken by exactly the worker that comes when n have been served |
| `SchedulerTurn.MovesUp` | server/skynet/skynet-src/skynet_mq.c:43-75 | until then it moves up by one each time a worker is served, and at no other time |
| `SchedulerTurn.LookupDecides` | server/skynet/skynet-src/skynet_server.c:304-311 | a worker goes on to the messages of a queue if and only if the queue's handle still has its context |
| `SchedulerTurn.PopDispatches` | server/skynet/skynet-src/skynet_mq.c:137-172 | a pop with a message there dispatches the first one and leaves the rest; an empty one dispatches nothing |
| `SchedulerTurn.DismissDecides` | server/skynet/skynet-src/skynet_mq.c:239-250 | a worker drains the queue it dismisses if and only if the queue's context is dead, and lists it again otherwise |
| `SchedulerTurn.DrainEnds` | server/skynet/skynet-src/skynet_mq.c:230-237 | draining hands over the first message each time and goes on until none is left; then the queue is freed |
| `SchedulerTurn.SentIsPushed` | server/skynet/skynet-src/skynet_server.c:229-240 | a message sent to a handle that has a context is pushed to the queue of that handle, behind what waits there, whatever happens in between |
| `SchedulerTurn.RetireRemoves` | server/skynet/skynet-src/skynet_handle.c:73-102 | a retired handle finds no context, no other handle is touched, and the reference of its slot goes to the retiring thread |
| `MessageQueues.RingPop` | server/skynet/skynet-src/skynet_mq.c:143-149 | a pop takes the first element of the ring, also where the head wraps |
| `MessageQueues.RingPush` | server/skynet/skynet-src/skynet_mq.c:194-199 | storing at the tail appends; if that fills the ring the whole array read from the head is the queue |
| `MessageQueues.WrapIndex` | server/skynet/skynet-src/skynet_mq.c:178-180 | the index arithmetic of the copy is the wrapped position |
| `MessageQueues.MessageQueue.Pop` | server/skynet/skynet-src/skynet_mq.c:137-172 | first message or the flag given up; the overload mark is the length when the threshold was passed, and the threshold is then doubled as often as it takes, and no further |
| `MessageQueues.MessageQueue.MarkOverload` | server/skynet/skynet-src/skynet_mq.c:156-159 | a length above the threshold is noted, and the threshold doubled until it is not above, and no further |
| `MessageQueues.MessageQueue.Overload` | server/skynet/skynet-src/skynet_mq.c:127-135 | gives the overload mark and clears it |
| `MessageQueues.MessageQueue.Push` | server/skynet/skynet-src/skynet_mq.c:189-209 | the message is appended through any expansion, and the queue listed exactly if its flag was down |
| `MessageQueues.MessageQueue.Expand` | server/skynet/skynet-src/skynet_mq.c:174-187 | doubling keeps the contents in order |
| `MessageQueues.MessageQueue.MarkRelease` | server/skynet/skynet-src/skynet_mq.c:219-228 | marks, and lists exactly if the flag was down |
| `MessageQueues.MessageQueue.Drop` | server/skynet/skynet-src/skynet_mq.c:230-237 | hands every message left to the callback, in order |
| `MessageQueues.MessageQueue.Release` | server/skynet/skynet-src/skynet_mq.c:239-250 | a released queue is drained and freed, another is listed again untouched |
| `MessageQueues.GlobalQueue.Push` | server/skynet/skynet-src/skynet_mq.c:43-56 | appends at the tail of the linked list |
| `MessageQueues.GlobalQueue.Pop` | server/skynet/skynet-src/skynet_mq.c:58-75 | takes the head; the queue leaves with no successor |
| `RwLock.Exclusive` | server/skynet/skynet-src/rwlock.h:17-48 | in every interleaving of any number of threads, a writer inside is alone inside, and `read` counts the readers inside or backing off |
| `RwLock.StepKeeps` | server/skynet/skynet-src/rwlock.h:17-48 | each single read or atomic operation keeps the counting invariant |
| `RwLock.NeverStuck` | server/skynet/skynet-src/rwlock.h:17-48 | when threads wait and nobody is inside, some thread's next operation changes the state (that this leads inside: `SomeoneGetsIn`) |
| `RwLock.Uncontended` | server/skynet/skynet-src/rwlock.h:22-44 | two operations of one thread alone put it inside, a reader while no writer is there, a writer while nobody is |
| `RwLock.SomeoneGetsIn` | server/skynet/skynet-src/rwlock.h:22-44 | from every reachable state in which threads wait and nobody is inside, some continuation by next operations alone puts one of them inside |
| `RwLock.EveryoneGetsIn` | server/skynet/skynet-src/rwlock.h:22-54 | from every reachable state, whatever the others are doing, every call can still be brought to hold the lock it asked for, with no new call needed |
| `SocketRuns.NoOvertaking` | server/skynet/skynet-src/socket_server.c:1586-1669 | for a send that returned before another began, unless the first is low-priority and the other is not: a byte of the other stands before the end of the first if and only if the other has a byte on the wire and its second check passed between the two halves of a close that had freed what was left of the first, or while the first was in the pipe or a list and some call had not been counted |
| `SocketRuns.WireIsWhole` | server/skynet/skynet-src/socket_server.c:580-611 | the wire is whole messages one after another and at most the beginning of one more, if and only if no direct write has put a byte behind a message that was freed when part of it had been written |
| `SocketRuns.TornInClose` | server/skynet/skynet-src/socket_server.c:409-436 | which happens between the two halves of a close only |
| `SocketRuns.TornRun` | server/skynet/skynet-src/socket_server.c:409-436 | a run of two sends in which the first is torn and overtaken by the second |
| `SocketRuns.BytesOnce` | server/skynet/skynet-src/socket_server.c:580-611 | every byte on the wire is a byte of a call that was not refused, and no byte of a call is there twice |
| `SocketRuns.DirectIsAlone` | server/skynet/skynet-src/socket_server.c:1606-1636 | when the second check passes, the request of a call that was over when this one began is wholly on the wire, if and only if it is neither freed by a close under way nor still in the pipe or a list, which takes a call that was not counted |
| `SocketRuns.DirectMeansAlone` | server/skynet/skynet-src/socket_server.c:1578-1583 | all five reads at one moment mean: as many requests are underway as calls have not been counted, none if and only if there is no such call; and, unless a close is under way, nothing waits in the lists and everything is written in full |
| `SocketRuns.AssertionHolds` | server/skynet/skynet-src/socket_server.c:1130-1138 | on a socket that has been opened, a run that goes on until all that was posted has been served meets the assertion of dec_sending_ref throughout if and only if no call went through inc_sending_ref before the socket was opened |
| `SocketRuns.AbortsExactly` | server/skynet/skynet-src/socket_server.c:1130-1138 | the assertion fails exactly when as many requests are underway as calls have not been counted |
| `SocketRuns.DecFindsReference` | server/skynet/skynet-src/socket_server.c:1130-1138 | so long as every call has been counted, the counter is not 0 when it is decremented |
| `SocketRuns.EarlyAborts` | server/skynet/skynet-src/socket_server.c:1108-1138 | a run of a send right behind a connect in which the assertion fails |
| `SocketRuns.EarlyOvertaken` | server/skynet/skynet-src/socket_server.c:1108-1128 | and one in which that send is overtaken, with no close |
| `SocketRuns.QuietMeansSent` | server/skynet/skynet-src/socket_server.c:768-794 | with pipe, lists and leftover empty on an open socket, every request that took its turn is wholly on the wire, or freed by a close under way, and never both |
| `SocketOrder.StepKeeps` | server/skynet/skynet-src/socket_server.c:1108-1138 | every read, atomic update and locked section of callers, pipe and socket thread, the opening of the slot, and each half of a close keep the order invariant; the assertion of dec_sending_ref fails only if a call was not counted |
| `SocketOrder.IncKeeps` | server/skynet/skynet-src/socket_server.c:1108-1128 | going through inc_sending_ref keeps it, counted or, before the protocol is set, not |
| `SocketOrder.NewFdKeeps` | server/skynet/skynet-src/socket_server.c:464-488 | so does new_fd, which resets the counter while requests may be in the pipe |
| `SocketOrder.GrantedKeeps` | server/skynet/skynet-src/socket_server.c:1599-1604 | a passing check gives the call its place behind what is on the wire |
| `SocketOrder.FreeKeeps` | server/skynet/skynet-src/socket_server.c:409-424 | freeing the lists without the lock keeps the invariant, whoever has the lock |
| `SocketOrder.CloseKeeps` | server/skynet/skynet-src/socket_server.c:424-436 | so does the half under the lock |
| `SocketRuns.OnceEach` | server/skynet/skynet-src/socket_server.c:1586-1669 | a call is in the row of requests once |
| `SocketWire.WholeIff` | server/skynet/skynet-src/socket_server.c:580-611 | what buffers have on the wire is one message after another if and only if nothing stands behind a stump |
| `SocketWire.Locate` | server/skynet/skynet-src/socket_server.c:580-611 | each byte on the wire is from one buffer, at its place |
| `SocketSend.SendBufferKeeps` | server/skynet/skynet-src/socket_server.c:768-794 | flushing, for any results of write() (what it sends: `SocketFlush.FlushSends`): whole messages on the wire, only the first buffer in line partly sent, `wb_size` exact, asserts hold, order of requests unchanged |
| `SocketSend.SendLowKeeps` | server/skynet/skynet-src/socket_server.c:726-766 | the same for the low list, its partly sent head raised to the high list (what it sends: `SocketFlush.LowSends`) |
| `SocketSend.SendListKeeps` | server/skynet/skynet-src/socket_server.c:580-611 | partial, interrupted and refused writes of a list only move bytes from its front to the wire |
| `SocketSend.SendSocketLine` | server/skynet/skynet-src/socket_server.c:844-910 | a new request goes behind the high list if it is high, behind everything otherwise |
| `SocketSend.SendSocketKeeps` | server/skynet/skynet-src/socket_server.c:844-910 | accepting or dropping a request keeps the invariants and writes nothing |
| `SocketSend.DirectWriteKeeps` | server/skynet/skynet-src/socket_server.c:1606-1636 | a direct write with a leftover keeps the invariants |
| `SocketSend.AdoptKeeps` | server/skynet/skynet-src/socket_server.c:775-788 | the leftover of a direct write joins the high list at its head |
| `SocketSend.FreeListsKeeps` | server/skynet/skynet-src/socket_server.c:418-419 | freeing the lists leaves the wire as it is; a head that has been sent in part ends there |
| `SocketSend.FinishKeeps` | server/skynet/skynet-src/socket_server.c:424-436 | so does the half of a close under the lock, with what a direct write had left over |
| `SocketSend.ClosedKeeps` | server/skynet/skynet-src/socket_server.c:409-436 | both halves under the lock keep the line of requests and the wire |
| `SocketSend.EmptyMeansZero` | server/skynet/skynet-src/socket_server.c:713-716 | empty lists mean `wb_size` is 0 |
| `SocketSend.Socket.Flush` | server/skynet/skynet-src/socket_server.c:768-794 | the loops, over both lists and what a direct write left, have the effect that `SocketFlush.FlushSends` states, and keep the invariants |
| `SocketFlush.FlushSends` | server/skynet/skynet-src/socket_server.c:726-794 | however the writes come back: exactly the waiting buffers that they take in full reach the wire, in the order they waited, and of the next one what a short write takes; the rest stays in that order; the socket is closed if and only if a write failed or everything is sent and it was to be closed then |
| `SocketFlush.FlushSendsAll` | server/skynet/skynet-src/socket_server.c:726-794 | if every write takes what it is offered, both lists and the leftover are empty and the wire has gained every waiting byte, in order |
| `SocketFlush.LeftMeansStopped` | server/skynet/skynet-src/socket_server.c:726-794 | bytes are still waiting only if a write took less than it was offered, was refused or failed, or the calls ran out |
| `SocketFlush.LowSends` | server/skynet/skynet-src/socket_server.c:735-766 | the same for the low list behind an empty high list |
| `SocketFlush.DirectWriteSends` | server/skynet/skynet-src/socket_server.c:1606-1636 | a direct write puts as many bytes on the wire as were written, and what is left of the message waits in front of everything else |
| `SocketProgress.FlushInRun` | server/skynet/skynet-src/socket_server.c:768-794 | in every run of callers, pipe and closes each flush does just that |
| `SocketProgress.WriteInRun` | server/skynet/skynet-src/socket_server.c:1606-1636 | and each direct write puts the first bytes of its call's own message on the wire |
| `SocketProgress.StepsNearer` | server/skynet/skynet-src/socket_server.c:1578-1669 | every step of a call, whatever its reads find, brings it nearer to its return |
| `SocketProgress.CallEnds` | server/skynet/skynet-src/socket_server.c:1578-1669 | from every state of every run a call that is left alone returns within fifteen steps at most, whoever holds the lock and whatever waits, unless the counter of references is full |
| `SocketProgress.CanDrain` | server/skynet/skynet-src/socket_server.c:768-794 | from every state of every run in which the socket is open, nobody has the lock and every call was counted, the socket thread alone can put every message whose call took its turn on the wire in full |
| `SocketSend.Socket.SendListTcp` | server/skynet/skynet-src/socket_server.c:580-611 | the write loop computes SendList |
| `SocketSend.Socket.RaiseUncomplete` | server/skynet/skynet-src/socket_server.c:696-711 | the head of the low list becomes the high list |
| `SocketSend.Socket.NewFd` | server/skynet/skynet-src/socket_server.c:464-488 | sizes and leftover are reset, and the assertions that both lists are empty hold |
| `SocketSend.Socket.Accept` | server/skynet/skynet-src/socket_server.c:844-910 | append by priority, or drop on a socket that is closed or not started |
| `SocketSend.Socket.ForceClose` | server/skynet/skynet-src/socket_server.c:409-436 | the two halves, one after the other |
| `TimerWheel.Punctual` | server/skynet/skynet-src/skynet_timer.c:74-185 | over any run of additions and ticks, what the next tick dispatches is exactly the timers added with a delay (1 to 2^31-1) that ends at that tick, in the order they were added, though the clock wraps at 2^32: each timer once, in the update that makes the time t+d |
| `TimerWheel.AfterIs` | server/skynet/skynet-src/skynet_timer.c:74-185 | what is pending after a run is what was asked for and is not due yet |
| `TimerWheel.DueByTick` | server/skynet/skynet-src/skynet_timer.c:159-170 | due by the 32-bit clock is due by the unbounded count of ticks |
| `TimerWheel.OrMask` | server/skynet/skynet-src/skynet_timer.c:74-93 | or with a mask of k ones fills the low bits |
| `TimerWheel.MaskedEqual` | server/skynet/skynet-src/skynet_timer.c:74-93 | the comparisons of masked words are comparisons of the blocks above the mask |
| `TimerWheel.CascadeTick` | server/skynet/skynet-src/skynet_timer.c:118-139 | on a tick that cascades, the timers whose place changes are exactly those of the one cascaded list |
| `TimerWheel.QuietTick` | server/skynet/skynet-src/skynet_timer.c:118-139 | on any other tick no timer's place changes |
| `TimerWheel.CascadeCell` | server/skynet/skynet-src/skynet_timer.c:108-139 | moving one list leaves every list what add_node would build at the new time |
| `TimerWheel.FoundLevel` | server/skynet/skynet-src/skynet_timer.c:118-139 | the loop of timer_shift stops at the level to cascade, at the fourth at the latest, before its mask overflows |
| `TimerWheel.Timer.AddNode` | server/skynet/skynet-src/skynet_timer.c:74-93 | appends the node to the list its expiry and the clock select, and to no other |
| `TimerWheel.Timer.MoveList` | server/skynet/skynet-src/skynet_timer.c:108-116 | empties one list and puts its nodes where they belong now, in order |
| `TimerWheel.Timer.TimerShift` | server/skynet/skynet-src/skynet_timer.c:118-139 | one tick later every list is again the function of expiry and time |
| `TimerWheel.Timer.TimerExecute` | server/skynet/skynet-src/skynet_timer.c:159-170 | dispatches what is due, in insertion order; requests made while the lock is released are kept |
| `TimerWheel.Timer.TimerUpdate` | server/skynet/skynet-src/skynet_timer.c:172-185 | one update of the wheel is one tick of the plain list of timers |
| `TimerWheel.Timer.Timeout` | server/skynet/skynet-src/skynet_timer.c:211-231 | a delay of 0 or less is answered at once, any other is added |
| `SkipList.List.Insert` | server/lualib_c/zset/skiplist.c:91-143 | for any level choice: the sorted sequence gains the element; levels, spans, back links, tail and length stay right |
| `SkipList.List.Delete` | server/lualib_c/zset/skiplist.c:167-191 | found exactly if the pair is present, and then one copy is removed |
| `SkipList.List.DeleteNode` | server/lualib_c/zset/skiplist.c:146-164 | unlinks the node at every level it reaches |
| `SkipList.List.DeleteByRank` | server/lualib_c/zset/skiplist.c:195-221 | removes exactly the ranks from start to end and hands out their objects in order |
| `SkipList.List.GetNodeByRank` | server/lualib_c/zset/skiplist.c:251-273 | the node of that rank, or none |
| `SkipList.List.GetRank` | server/lualib_c/zset/skiplist.c:227-248 | the first pause of the search at a node with that object |
| `SkipListRanks.RankIsRight` | server/lualib_c/zset/skiplist.c:227-248 | with unique objects: the rank of a present pair is its place; of an absent pair it is not 0 if and only if its object stands, at or before the place of the pair, on a node taller than all from there to that place, and then it is the rank of that node |
| `SkipListRanks.MeetsIsShows` | server/lualib_c/zset/skiplist.c:227-248 | the search pauses at the object on some level if and only if such a node is there |
| `SkipListRanks.NeverFoundIs` | server/lualib_c/zset/skiplist.c:227-248 | an absent pair gets rank 0 whatever heights are drawn if and only if no element with its object has a smaller score |
| `SkipListRanks.AnyHeights` | server/lualib_c/zset/skiplist.c:74-79 | every choice of heights is that of some list of the elements with all links and spans right |
| `SkipListRanks.RankOfPresent` | server/lualib_c/zset/skiplist.c:227-248 | a present pair is always met |
| `SkipList.RankOfAbsent` | server/lualib_c/zset/skiplist.c:227-248 | a list on which an absent pair gets a rank: the score is not compared |
| `SkipList.List.RankRange` | server/lualib_c/zset/lskiplist.c:94-119 | for any 64-bit ranks: the objects from the first rank on, towards the second, as many as the number of ranks cut to an int; empty if the start is no rank |
| `SkipList.RankRangePromised` | server/lualib_c/zset/lskiplist.c:94-119 | that is the slice of ranks, forwards or backwards, if and only if the cut number covers the ranks there are to give |
| `SkipList.ShortRangeIsRight` | server/lualib_c/zset/lskiplist.c:94-119 | so for every range of fewer than 2^31 ranks |
| `SkipList.RankRangeCut` | server/lualib_c/zset/lskiplist.c:94-119 | a list with a range that comes out empty and one that comes out short |
| `SkipList.List.ScoreRange` | server/lualib_c/zset/lskiplist.c:121-153 | the objects with scores in the range, forwards or reversed |
| `SkipList.List.FirstInRange` | server/lualib_c/zset/skiplist.c:296-313 | the node at the rank of FirstFound, or none |
| `SkipList.RangePromised` | server/lualib_c/zset/skiplist.c:294-334 | the two ends are the first and last element in the range, or none if there is none, if and only if the range does not fall in a gap between two scores |
| `SkipList.RangeInGap` | server/lualib_c/zset/skiplist.c:294-334 | a range in a gap, for which an element outside it is returned |
| `SkipList.List.LastInRange` | server/lualib_c/zset/skiplist.c:317-334 | the node at the rank of LastFound, or none |
| `SkipList.List.IsInRange` | server/lualib_c/zset/skiplist.c:277-292 | whether the range and the list overlap |
| `SkipList.ForwardIs` | server/lualib_c/zset/lskiplist.c:94-119 | walking forward links for n steps gives a slice |
| `SkipList.BackIs` | server/lualib_c/zset/lskiplist.c:94-119 | walking back links for n steps gives a reversed slice |
| `SkipList.BetweenIs` | server/lualib_c/zset/skiplist.c:277-334 | scores in the range are the ranks between two counts |
| `SkipList.ScoresAre` | server/lualib_c/zset/lskiplist.c:121-153 | the two walks from the ends found give the range |
| `SkipListLinks.LessIsTotal` | server/lualib_c/zset/skiplist.c:81-101 | score, then object, is a total order (which one: `LessIs`) |
| `SkipListLinks.LessIs` | server/lualib_c/zset/skiplist.c:81-101 | an element is below another by its score, or at equal scores as in a dictionary: a proper prefix, or the smaller byte where they first differ |
| `SkipListLinks.InsertedSorted` | server/lualib_c/zset/skiplist.c:91-143 | the insertion the list refines keeps the order of `LessIs` and adds one copy |
| `SkipListLinks.RemovedIsGone` | server/lualib_c/zset/skiplist.c:167-191 | the removal it refines keeps order and takes one copy |
| `SkipListLinks.SplicedKeeps` | server/lualib_c/zset/skiplist.c:122-130 | linking the node in at one level, with the span split in two, keeps every level right |
| `SkipListLinks.GrownKeeps` | server/lualib_c/zset/skiplist.c:132-135 | at a level above the node, the link over it grows by one |
| `SkipListLinks.UnsplicedKeeps` | server/lualib_c/zset/skiplist.c:146-155 | linking it out joins the spans |
| `Bigints.Bigint.MultAdd` | server/lualib_c/cjson/dtoa.c:612-667 | m*b + a, in place or in a longer array |
| `Bigints.Mult` | server/lualib_c/cjson/dtoa.c:805-915 | a*b, normalised |
| `Bigints.Cmp` | server/lualib_c/cjson/dtoa.c:1034-1066 | the order of the integers |
| `Bigints.Diff` | server/lualib_c/cjson/dtoa.c:1068-1160 | |a - b| and the sign |
| `Bigints.LShift` | server/lualib_c/cjson/dtoa.c:974-1032 | b * 2^k |
| `Bigints.Pow5Mult` | server/lualib_c/cjson/dtoa.c:917-972 | b * 5^k by repeated squaring over a growing list of powers |
| `Bigints.PowersOfFive.Get` | server/lualib_c/cjson/dtoa.c:935-971 | entry i of the list is 5^(4*2^i), computed when first needed |
| `Bigints.SubtractProduct` | server/lualib_c/cjson/dtoa.c:2119-2241 | the borrow loop leaves b - q*S |
| `Bigints.SubtractTurn` | server/lualib_c/cjson/dtoa.c:2119-2241 | one turn of the loop accounts for its carry and borrow |
| `Digits.QuotientGuess` | server/lualib_c/cjson/dtoa.c:2119-2150 | the estimate from the top words is the quotient or one less |
| `Digits.OneCorrection` | server/lualib_c/cjson/dtoa.c:2198-2241 | so one correction is enough |
| `Digits.QuoRem` | server/lualib_c/cjson/dtoa.c:2119-2241 | returns floor(b/S) and leaves b mod S |
| `Digits.DigitLoop` | server/lualib_c/cjson/dtoa.c:4285-4296 | the digits so far and the remainder account for the fraction |
| `Digits.AllSoFar` | server/lualib_c/cjson/dtoa.c:4298-4311 | what rounding compares: half-even of the scaled fraction |
| `Digits.HalfEvenIs` | server/lualib_c/cjson/dtoa.c:4298-4311 | half-even is the nearest integer, and the even one of two that are equally near |
| `Digits.RoundUp` | server/lualib_c/cjson/dtoa.c:4313-4321 | adds one in the last place, nines rolling over |
| `Digits.TrimZeros` | server/lualib_c/cjson/dtoa.c:4322-4329 | takes trailing zeros away and nothing else |
| `Digits.ModeTwo` | server/lualib_c/cjson/dtoa.c:4284-4329 | from 1 <= b/S < 10: the ilim digits of b/S rounded half to even, no zero at either end |
| `Digits.Hi0Bits` | server/lualib_c/cjson/dtoa.c:707-739 | the number of leading zero bits |
| `Digits.DShift` | server/lualib_c/cjson/dtoa.c:2106-2117 | the shift after which the top word has four leading zero bits |
| `Digits.ShiftedTop` | server/lualib_c/cjson/dtoa.c:2106-2117 | such a shift scales the divisor as the quotient estimate needs |
| `Digits.SameRatio` | server/lualib_c/cjson/dtoa.c:4087-4160 | cancelling and adding powers of two on both sides changes no rounding and no comparison |
| `Digits.Dtoa` | server/lualib_c/cjson/dtoa.c:4084-4329 | the integer path of mode 2: correctly rounded half to even, also when the exponent estimate was one too large |
| `SharedTable.CountSize` | server/skynet/lualib-src/lua-sharedata.c:67-89 | the number of hash keys, so the slots fit exactly |
| `SharedTable.Shared.FillNoColliding` | server/skynet/lualib-src/lua-sharedata.c:212-235 | each main position goes to the first of its keys |
| `SharedTable.Shared.FindEmpty` | server/skynet/lualib-src/lua-sharedata.c:246-258 | while a key is missing there is an empty slot: the assert never fails |
| `SharedTable.Shared.FillColliding` | server/skynet/lualib-src/lua-sharedata.c:237-272 | then every key is on the acyclic chain of its main position |
| `SharedTable.TakeMain` | server/skynet/lualib-src/lua-sharedata.c:212-235 | taking an empty main position keeps placement and chains |
| `SharedTable.TakeColliding` | server/skynet/lualib-src/lua-sharedata.c:237-272 | putting a key in an empty slot behind its main position keeps placement and chains |
| `SharedTable.Full` | server/skynet/lualib-src/lua-sharedata.c:246-258 | slots all taken means as many keys as slots |
| `SharedTable.Shared.LookupKey` | server/skynet/lualib-src/lua-sharedata.c:501-530 | finds exactly the keys inserted and ends on others |
| `SharedTable.AloneOnChain` | server/skynet/lualib-src/lua-sharedata.c:507-512 | the early exit at a chain of one is right |
| `SharedTable.Shared.Index` | server/skynet/lualib-src/lua-sharedata.c:532-566 | for every 64-bit key: what the Lua table held at the key cut to an int |
| `SharedTable.WideKey` | server/skynet/lualib-src/lua-sharedata.c:532-566 | that is what it held at the key itself if and only if the key is an int or the cut one has no value |
| `SharedTable.WideKeyRead` | server/skynet/lualib-src/lua-sharedata.c:532-566 | a table of one key that index 2^32 + 1 reads |
| `SharedTable.Shared.NextKey` | server/skynet/lualib-src/lua-sharedata.c:579-646 | the successor of the key, cut to an int, in one fixed order; the end for a key of the hash part that is not there |
| `SharedTable.OrderIsAll` | server/skynet/lualib-src/lua-sharedata.c:579-646 | which lists every key with a value exactly once |
| `HandleStorage.Storage.Register` | server/skynet/skynet-src/skynet_handle.c:34-71 | a handle no live context holds, the first of the pass whose slot no other context has, before and after growing, and nothing else changes; grows only when full, at most once, without collision; no handle if and only if the one free slot is passed over |
| `HandleStorage.Storage.FindSlot` | server/skynet/skynet-src/skynet_handle.c:40-51 | the first handle of the pass with an empty slot, or 0 if and only if the pass meets none |
| `HandleStorage.Storage.Grow` | server/skynet/skynet-src/skynet_handle.c:52-67 | if the table may double and has no empty slot, every context moves to the slot of its handle in the doubled array; otherwise it fails |
| `HandleStorage.PassLooksAt` | server/skynet/skynet-src/skynet_handle.c:40-51 | a pass looks at every slot but slot 0, and at slot 0 if and only if it ends before the wrap, or starts at 2^24 with fewer slots than that |
| `HandleStorage.Storage.PassMisses` | server/skynet/skynet-src/skynet_handle.c:40-52 | a pass finds nothing although a slot is free if and only if slot 0 is the only free one and the pass does not look at it |
| `HandleStorage.SlotZeroMissed` | server/skynet/skynet-src/skynet_handle.c:40-67 | registering and retiring one context after another, until the index is 2^24 - 1, three contexts stay and the free slot is passed over |
| `HandleStorage.Storage.FullMayDouble` | server/skynet/skynet-src/skynet_handle.c:52-52 | a table with every slot taken may double: the assert holds |
| `HandleStorage.DoublingDone` | server/skynet/skynet-src/skynet_handle.c:54-64 | the doubled array holds the same contexts |
| `HandleStorage.HalfEmpty` | server/skynet/skynet-src/skynet_handle.c:54-70 | and has room |
| `HandleStorage.Storage.Grab` | server/skynet/skynet-src/skynet_handle.c:136-153 | the context of the handle, if it is live |
| `HandleStorage.Storage.Retire` | server/skynet/skynet-src/skynet_handle.c:73-110 | removes the context and its names |
| `HandleStorage.Storage.RetireAll` | server/skynet/skynet-src/skynet_handle.c:112-134 | repeats rounds until nothing is live |
| `HandleStorage.NameTable.Search` | server/skynet/skynet-src/skynet_handle.c:155-183 | binary search: found, or the place that separates smaller from larger names |
| `HandleStorage.NameTable.FindName` | server/skynet/skynet-src/skynet_handle.c:155-183 | agrees with a map from names to handles |
| `HandleStorage.NameTable.Insert` | server/skynet/skynet-src/skynet_handle.c:185-233 | adds the name to the map, or refuses a name it has |
| `HandleStorage.NameTable.Remove` | server/skynet/skynet-src/skynet_handle.c:84-101 | drops the handle's names in one pass |
| `HandleStorage.LookupWithout` | server/skynet/skynet-src/skynet_handle.c:84-101 | no other name is affected |
| `HandleStorage.WithNameSorted` | server/skynet/skynet-src/skynet_handle.c:185-209 | inserting where the search ended keeps the array strictly sorted |
| `Framing.ChunksDoNotMatter` | server/skynet/service-src/databuffer.h:64-148 | however a stream is cut, the packets delivered are the parse of the whole |
| `Framing.Resume` | server/skynet/service-src/databuffer.h:64-148 | parsing can stop and go on with what was left |
| `Framing.RoundTrip` | server/skynet/lualib-src/lua-netpack.c:431-452 | parsing what was framed gives the packets back, with nothing left |
| `Framing.HeaderNumber` | server/skynet/service-src/databuffer.h:125-148 | big-endian headers of two, three and four bytes |
| `Framing.ResumeAccepted` | server/skynet/service-src/databuffer.h:64-148 | the same with packets of 16M and more, where taking packets ends |
| `Framing.LongStays` | server/skynet/service-src/service_harbor.c:440-455 | behind the header of such a packet nothing is taken, whatever follows |
| `Framing.ShortIsAll` | server/skynet/service-src/service_harbor.c:440-455 | streams without such packets are accepted entirely |
| `Netpack.Queue.FilterData` | server/skynet/lualib-src/lua-netpack.c:227-307 | one chunk of one socket: its packets, in order, as one packet or through the queue; what is left is kept; other sockets untouched |
| `Netpack.Queue.PushMore` | server/skynet/lualib-src/lua-netpack.c:188-215 | the packets of the rest go to the queue, the last piece is kept |
| `Netpack.Queue.FindUncomplete` | server/skynet/lualib-src/lua-netpack.c:92-114 | takes this socket's piece out of its hash chain and no other |
| `Netpack.Queue.Save` | server/skynet/lualib-src/lua-netpack.c:169-180 | puts it back |
| `Netpack.Queue.PushData` | server/skynet/lualib-src/lua-netpack.c:150-167 | appends to the ring, through expansion |
| `Netpack.Queue.ExpandQueue` | server/skynet/lualib-src/lua-netpack.c:133-148 | the larger ring holds the same packets in the same order |
| `Netpack.Queue.Pop` | server/skynet/lualib-src/lua-netpack.c:396-410 | the first packet |
| `Netpack.DeliverAll` | server/skynet/lualib/snax/gateserver.lua:63-79 | for any interleaving of chunks of any number of sockets, each socket's packets are the parse of its own stream, in order |
| `Netpack.LPack` | server/skynet/lualib-src/lua-netpack.c:436-452 | two-byte framing, refused from 65536 bytes on, and its inverse |
| `Gate.DataBuffer.Push` | server/skynet/service-src/databuffer.h:91-123 | appends |
| `Gate.DataBuffer.Read` | server/skynet/service-src/databuffer.h:64-89 | takes an exact prefix, across buffers |
| `Gate.DataBuffer.ReadHeader` | server/skynet/service-src/databuffer.h:125-148 | for headers of two to four bytes: the length of the next packet if it is all there and not negative as an int, or nothing and no change |
| `Gate.ShortHeaders` | server/skynet/service-src/service_gate.c:334-354 | headers of two or three bytes never announce 16M |
| `Gate.Dispatch` | server/skynet/service-src/service_gate.c:334-354 | every non-empty packet of what was kept and the chunk goes to the receiver, up to one of 16M or more, for which the close is asked and the buffer emptied once it is complete; otherwise the rest is kept |
| `Gate.NonEmptyIs` | server/skynet/service-src/service_gate.c:334-354 | what is sent of the packets is all of them but the empty ones |
| `Gate.DispatchAll` | server/skynet/service-src/service_gate.c:334-354 | over any list of chunks: what each chunk completes behind what was kept, where a close empties the buffer and does not stop the reading; the non-empty packets of the whole stream if none is of 16M or more |
| `Gate.WholeStream` | server/skynet/service-src/service_gate.c:334-354 | the receiver gets the non-empty packets of the whole stream up to one of 16M or more, and then what later chunks complete on the emptied buffer |
| `Gate.Afresh` | server/skynet/service-src/service_gate.c:334-354 | behind the chunk that completes such a packet parsing starts afresh: what is sent then is what the later chunks send on their own |
| `Gate.SilentIs` | server/skynet/service-src/service_gate.c:334-354 | chunks send nothing if and only if their stream completes no packet that is sent, and so again behind each packet of 16M or more |
| `Gate.ClosedInTime` | server/skynet/service-src/service_gate.c:334-354 | so the receiver gets the stream up to that packet alone if and only if the chunks behind it, as a stream of their own, complete no packet that is sent |
| `Gate.ReadAgain` | server/skynet/service-src/service_gate.c:334-354 | two chunks for which one is sent behind the close |
| `Gate.Forward` | server/skynet/service-src/service_gate.c:300-332 | to the broker, the agent or the watchdog, or nowhere |
| `Gate.OutOfStep` | server/skynet/service-src/service_gate.c:300-332 | with no receiver, bytes of a packet are read as headers: a concrete stream |
| `Gate.NobodyNeeded` | server/skynet/service-src/service_gate.c:300-354 | with no receiver the promise is kept if and only if the stream completes no non-empty packet |
| `Gate.InStepAgain` | server/skynet/service-src/service_gate.c:300-354 | with no receiver the connection is in step at the end of a chunk if and only if the frames it completes are a whole number of headers long and read as headers throughout |
| `Harbor.Slave.PushSocketData` | server/skynet/service-src/service_harbor.c:408-500 | one chunk in any state: the handshake, by the number of the peer, then the packets that what was pending and the chunk complete, in order, forwarded to handles of this node; a header of 16M or more takes the connection down |
| `Harbor.PushAll` | server/skynet/service-src/service_harbor.c:408-500 | over any list of chunks: the packets of the whole stream behind the handshake byte, forwarded to handles of this node, up to the first header of 16M or more, which takes the connection down |
| `Harbor.Slave.Feed` | server/skynet/service-src/service_harbor.c:430-500 | the state machine of headers and contents; what is complete is forwarded to handles of this node |
| `Harbor.CookieBack` | server/skynet/service-src/service_harbor.c:282-326 | the receiver recovers source, destination, type and session |
| `Harbor.CookieBytes` | server/skynet/service-src/service_harbor.c:273-287 | the twelve bytes of the cookie are source, destination and session, each with its high byte first |
| `Harbor.SentArrives` | server/skynet/service-src/service_harbor.c:328-342 | what is sent to a handle of a node is delivered there to that very handle, with its source, type and session, whatever number the sender has, if and only if it is below 16M |
| `Harbor.Deliver` | server/skynet/service-src/service_harbor.c:408-549 | the same from end to end, over any cut of the stream into chunks |
| `SocketBuffer.Buffer.Push` | server/skynet/lualib-src/lua-socket.c:98-146 | appends; nodes come from the pool or are made |
| `SocketBuffer.Buffer.Pop` | server/skynet/lualib-src/lua-socket.c:233-250 | an exact prefix or nothing |
| `SocketBuffer.Buffer.PopString` | server/skynet/lualib-src/lua-socket.c:167-207 | removes sz bytes across nodes and returns all but the last `skip`; every node returns to the pool once |
| `SocketBuffer.Buffer.ReadAll` | server/skynet/lualib-src/lua-socket.c:273-290 | all bytes in order |
| `SocketBuffer.Buffer.Clear` | server/skynet/lualib-src/lua-socket.c:256-271 | all nodes return |
| `SocketBuffer.Buffer.CheckSep` | server/skynet/lualib-src/lua-socket.c:300-317 | whether the bytes from here on begin with the separator, across nodes |
| `SocketBuffer.Buffer.ReadLine` | server/skynet/lualib-src/lua-socket.c:324-361 | what stands before the first separator, removed through it |
| `SocketBuffer.Buffer.Locate` | server/skynet/lualib-src/lua-socket.c:337-359 | the first occurrence, or none |
| `SocketBuffer.FirstAtIs` | server/skynet/lualib-src/lua-socket.c:324-361 | first means: here and nowhere before |
| `SocketBuffer.Pool.Get` | server/skynet/lualib-src/lua-socket.c:105-132 | a node handed out is in the pool no more |
| `Seri.PackUnpack` | server/skynet/lualib-src/lua-seri.c:555-612 | unpacking what was packed gives the same list of values |
| `Seri.Pack` | server/skynet/lualib-src/lua-seri.c:341-349 | packs exactly the lists whose values are all supported and nest at most 32 deep |
| `Seri.PackOne` | server/skynet/lualib-src/lua-seri.c:296-340 | fails exactly when the value does not fit at that depth |
| `Seri.PackSlots` | server/skynet/lualib-src/lua-seri.c:217-237 | slots 1..n of the table, holes as nil |
| `Seri.PackRest` | server/skynet/lualib-src/lua-seri.c:239-257 | every other entry in order, the slots skipped |
| `Seri.PutInteger` | server/skynet/lualib-src/lua-seri.c:142-174 | the form for the value, and no stream that reads as this integer is shorter |
| `Seri.PutText` | server/skynet/lualib-src/lua-seri.c:190-213 | short, two-byte and four-byte lengths, and no stream that reads as this string is shorter |
| `Seri.PutHead` | server/skynet/lualib-src/lua-seri.c:217-228 | the number of slots in the head or behind it, and no head that announces as many is shorter |
| `Seri.WriteBlock.Push` | server/skynet/lualib-src/lua-seri.c:65-85 | appends across any number of 128-byte blocks |
| `Seri.WriteBlock.Flatten` | server/skynet/lualib-src/lua-seri.c:534-553 | following the chain copies exactly what was pushed |
| `Seri.Unpack` | server/skynet/lualib-src/lua-seri.c:555-597 | the loop computes TakeAll, on any bytes |
| `Seri.ReadBlock.PushValue` | server/skynet/lualib-src/lua-seri.c:467-532 | the reader computes TakeValue, on any bytes |
| `Seri.ReadBlock.UnpackTable` | server/skynet/lualib-src/lua-seri.c:434-465 | the reader of tables computes TakeTable, on any bytes |
| `SeriWire.SelfDelimiting` | server/skynet/lualib-src/lua-seri.c:142-349 | whatever follows, reading an encoding gives the value and stops right behind it |
| `SeriWire.RoundTrip` | server/skynet/lualib-src/lua-seri.c:523-612 | a list of values written one after another is read back |
| `SeriWire.Shortest` | server/skynet/lualib-src/lua-seri.c:142-349 | no stream that reads as a value is shorter than what the value is written as, tables included |
| `SeriWire.ShortestAll` | server/skynet/lualib-src/lua-seri.c:523-612 | nor is any stream that reads as a list of values |
| `SeriWire.ShortestHead` | server/skynet/lualib-src/lua-seri.c:217-228 | nor any head of a table |
| `SeriWire.IntegerBytesSize` | server/skynet/lualib-src/lua-seri.c:142-174 | an integer takes 1, 2, 3, 5 or 9 bytes, by its range |
| `SeriWire.AsIntegerIs` | server/skynet/3rd/lua/lvm.c:104-115 | a double is read as an integer key if and only if it equals one of 64 bits |
| `SeriWire.TakeWritten` | server/skynet/lualib-src/lua-seri.c:142-174 | every 64-bit integer is read back from its form |
| `SeriWire.TakeTextWritten` | server/skynet/lualib-src/lua-seri.c:190-213 | every string is |
| `SeriWire.PutNew` | server/skynet/lualib-src/lua-seri.c:456-464 | setting a key not yet there adds one entry |
| `SeriValues.FitsIsDepth` | server/skynet/lualib-src/lua-seri.c:296-340 | fitting is: all types supported, and depth at most 32 |
| `SeriValues.ViewKeeps` | server/skynet/lualib-src/lua-seri.c:217-257 | the written form holds exactly the entries of the table |
| `SeriValues.TableWire` | server/skynet/lualib-src/lua-seri.c:282-294 | a table is its count, its slots, its other entries and a nil |
| `DhCrypt.MulModP` | server/skynet/lualib-src/lua-crypt.c:717-737 | a*b mod 2^64-59 with no carry lost |
| `DhCrypt.PowMod` | server/skynet/lualib-src/lua-crypt.c:739-758 | congruent to a^b; below P except for a == P, b == 1 |
| `DhCrypt.Exchange` | server/skynet/lualib-src/lua-crypt.c:792-810 | 5^x mod P, never 0 |
| `DhCrypt.Secret` | server/skynet/lualib-src/lua-crypt.c:775-788 | x^y mod P, but P for x == P and y == 1; an error if one of them is 0 |
| `DhCrypt.Agree` | server/skynet/lualib-src/lua-crypt.c:775-810 | both sides get 5^(x*y) mod P |
| `DhCrypt.PowerNotZero` | server/skynet/lualib-src/lua-crypt.c:792-810 | powers of the generator are not 0 mod P |
| `ByteOrder.CompareTransitive` | server/skynet/skynet-src/skynet_handle.c:160-176 | comparing byte strings in the order of `CompareIs` is transitive |
| `ByteOrder.CompareEqual` | server/lualib_c/zset/skiplist.c:87-89 | and 0 only for equal strings |
| `ByteOrder.CompareIs` | server/lualib_c/zset/skiplist.c:81-85 | one string comes before another if and only if the other extends it or has the larger byte where they first differ |

## Left out

- HandleStorage.Storage.RetireAll: no other thread registers meanwhile, because then the code may not end.
- Harbor.Slave.PushSocketData: packets shorter than the 12 bytes of the cookie are not covered, because the code reads before the buffer for them.
- Harbor.Slave.Feed: the same packets are not covered.
- Harbor.PushAll: the same packets are not covered.
- Seri.ReadBlock.UnpackTable: the depth of a stream is not bounded, as in the code; the size of the C stack is not part of this model.
- SeriWire.TakeText: a string length of 2^31 or more in a stream counts as invalid; the packer never writes one.
- Netpack.Queue.FilterData: buffers are values; that each is freed once is not modelled.
- The write buffers of a socket, netpack's hash chains, the buffers of the gate and the nodes of a SocketBuffer are sequences, not nodes with links; their head and tail pointers are not modelled.
- Gate.DataBuffer.Read: the pool its list nodes come from is not modelled.
- Sockets, polling, pipes, select, address lookup, threads and their wake-ups, logging, the profiler and allocation hooks.
- `skynet_context_dispatchall`, the bootstrap failure path of the scheduler.
- UDP sockets, and user-object buffers in the low-priority list, whose `list_uncomplete` compares two different pointers.
- strtod, dtoa's floating-point fast path and its other modes: the integer path of mode 2 uses every big-integer operation they share.
- Digit characters, sign and decimal point of dtoa's result: digits are numbers here.
- The string map and the box, dirty and reference calls of lua-sharedata.
- `dispatch_name_queue` and the message queues of the harbor, whose ring repeats the one of `MessageQueue.dfy`.
- Closing and clearing of netpack's pieces, and the events it reports beside data.
- Tables with a `__pairs` metamethod in the serialiser: what they write is decided by a Lua function.
- lua-cluster's packing in parts, whose cutting and joining repeats the argument of `Framing.dfy`.
- AES, DES, SHA-1, MD5 and HMAC, the JSON and BSON codecs, snapshot, lfs, XML, TLS and MySQL helpers, and all scripts.
