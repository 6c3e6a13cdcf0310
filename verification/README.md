# A verified model of DN

DN is a distributed build tool: a master hands build edges to slaves over its own
RPC layer and takes unanswered ones back to run them itself. This project models the
parts of DN whose correctness depends on many steps going together, and proves what
those parts promise over every input, every schedule and every reachable state.

| files | what they model | main results |
|---|---|---|
| `Framing.dfy`, `IoBuffers.dfy`, `RpcConnection.dfy`, `RpcDelivery.dfy` | the length-prefixed RPC stream, its growing read buffer, its bounded write queue, and sender, bytes in flight and receiver as one system | `RpcDelivery.RunLink`, `RpcDelivery.EveryTraceDelivers`, `RpcDelivery.EverythingArrives`, `Framing.ChunkingIndependence` |
| `RpcCalls.dfy`, `RpcExchange.dfy` | request ids, the map from ids to completions, and calls and responses over two links | `RpcCalls.RunCalls`, `RpcExchange.CompletionsAreGenuine` |
| `CommandExecutor.dfy` | the local command executor | `CommandExecutors.EveryRunKeeps`, `CommandExecutors.FirstInFirstOut` |
| `Plan.dfy`, `MasterState.dfy`, `Master.dfy` | the master's scheduler with local runs, remote runs and take-backs | `Masters.RunBuild`, `Masters.RunToTheEnd` |
| `Brackets.dfy`, `BracketMatchers.dfy`, `BracketTheorems.dfy`, `AngleBrackets.dfy` | cpplint's forward and backward bracket matchers with all heuristics | `BracketTheorems.CloseIsExact`, `BracketTheorems.ReverseIsExact`, `BracketTheorems.InverseExactlyWhen`, `AngleBrackets.CloseAtAngle` |
| `TemplateArguments.dfy`, `Nesting.dfy`, `NestingRegions.dfy` | cpplint's nesting state across `#if`, `#else`, `#endif`, with the look-ahead of class heads | `NestingRegions.StrippedRunsAlike`, `NestingRegions.HarmlessExactlyWhen` |
| `ConnectFallback.dfy` | connecting to the first reachable address of a list | `ConnectFallback.RunSessions` |
| `SocketCompletion.dfy` | callback slots and watchers of a socket | `SocketCompletion.RunSocket`, `SocketCompletion.RunsLoseExactly` |
| `EdgeWalks.dfy` | depth-first walks over the build graph and the slave's table of edges | `EdgeWalks.FindAllEdgesFrom`, `EdgeWalks.PostCreateThreads` |
| `Sequences.dfy` | facts about sequences and sets used above | |

How the pieces are put together:

- An object that the source updates in place is a class with the same fields. Its
  methods are proved against functions on a value that holds those fields, and the
  properties are lemmas about these functions.
- What the kernel, other threads, slaves and subprocesses do is input: each
  operation takes the results of the system calls it makes, and a run takes an
  arbitrary list of events. A statement about a run holds for every such list.
- `RunLink`, `RunCalls`, `RunBuild`, `RunToTheEnd`, `ProcessLines`, `RunSessions`,
  `RunSocket`, `FindAllEdgesFrom` and `PostCreateThreads` drive the objects
  themselves, so their contracts connect the code with the abstract statements.

Assumptions, each visible as a `requires` clause or a parameter:

- The protobuf serializer is a codec that parses what it serializes; where the
  source relies on it, no message has an empty serialized form.
- The command strings of the edges that have a command, and the hashes of all edges,
  tell the edges of the plan apart, and the plan is acyclic. `FindWork` returns some ready edge whenever there is one;
  `FindRemoteWork` returns a ready edge or none.
- Every attempt of a connection ends with a result other than pending.

What the code turned out to do where its promise does not hold as stated:

- A message that serializes to nothing is held back until more bytes arrive, because
  of the test `<= 4` at `src/rpc/rpc_connection.cc:234`.
  `Framing.EmptyMessageIsHeldBack` is an example, and
  `Framing.EverythingCompleteIsHandedUp` proves that this is the only exception.
- The loop of `HandleReadResult` spins for ever on a complete frame that does not
  parse. `Framing.UnparseableFrameIsStuck` is an example, and
  `RpcConnections.RpcConnection.HandUpRounds` proves that the loop ends if and only if
  every complete frame parses.
- A queued command can be overtaken for ever: the task posted for it finds its place
  taken by a command submitted meanwhile and goes to the end of the queue
  (`CommandExecutors.OvertakenForEver`, from a state that
  `CommandExecutors.WaitingIsReached` reaches at every parallelism). With no further
  submissions every command is finished (`CommandExecutors.EverythingFinishes`).
- `CallMethod` starts a write even when one is pending; the socket's `CHECK` at
  `src/net/socket_libevent.cc:263` then aborts the process
  (`RpcDelivery.SecondSendAborts`). The model records this as `aborted`
  (`RpcConnections.RpcConnection.SendMessage`), and delivery holds for what was
  accepted up to then.
- A call made while an earlier one waits under the same id takes its entry, and the
  entry of a completion that is running is erased afterwards whoever holds it then.
  `RpcCalls.NestedCallIsLost` is an example, and `RpcCalls.LostExactly` proves that a
  call is lost if and only if ids overlap in this way, which takes 2^32 calls.
- Deleting an `#else` branch can change the nesting stack, although the comment at
  `script/cpplint.py:2331-2333` says that such lines do not affect it: the look-ahead
  that tells a class head from a template argument reads the lines of the branch.
  `NestingRegions.DeletionChangesStack` is an example,
  `NestingRegions.HarmlessExactlyWhen` proves exactly when the deletion is harmless, and
  `NestingRegions.DecidedRegionsCountOnce` gives the condition that a reader can check:
  after each class head a deciding character comes before the next `#else` or `#elif`.
- `ReverseCloseExpression` started at a `>` that it ignores, as in `(a)->`, goes on
  with an empty stack and returns the bracket before it, although
  `CloseExpression` from that bracket ends earlier. `BracketTheorems.ArrowIsNotInverse`
  is the example, and `BracketTheorems.InverseExactlyWhen` proves exactly for which
  positions the two matchers are inverse.
- A `Connect` that has to wait overwrites the callback of a waiting `Write`
  (`SocketCompletion.ConnectDisplacesWrite`; it takes a kernel that answers EAGAIN to a
  write on a socket that is not connected), and an operation whose watch cannot be
  registered while the error left behind means "pending" is answered as pending with
  no callback kept (`SocketCompletion.WatchErrorLosesRead`).
  `SocketCompletion.RunsLoseExactly` proves that nothing else loses an operation.
- A slave that waits for an edge and again gets none is counted once more
  (`src/ninja/dn_builder.cc:432-440`), so `pending_edge_request_` does not count
  requests. `Masters.Builder.ServePendingRequests` says exactly how the counts change.
- The `DCHECK` at `src/ninja/dn_builder.cc:114` demands that no work is left when a
  build starts. It is inverted and is not modelled.

## Model

| member | source | states |
|---|---|---|
| `Bytes.BigEndianRoundTrip` | src/rpc/rpc_connection.cc:237-238 | reading a big-endian uint32 undoes writing it |
| `Bytes.FromBigEndianIsBase256` | src/rpc/rpc_connection.cc:237-238 | the prefix is read as a base 256 number, the most significant byte first |
| `Bytes.BigEndianIsBase256` | src/rpc/rpc_connection.cc:187-189 | and written as one |
| `Framing.StreamConcat` | src/rpc/rpc_connection.cc:187-192 | the bytes of two message lists one after the other are the bytes of the joined list |
| `Framing.CompleteCountCuts` | src/rpc/rpc_connection.cc:232-242 | the counted frames lie inside the first n bytes and the next one does not |
| `Framing.FirstFrameMessage` | src/rpc/rpc_connection.cc:187-192 | a frame followed by anything is read back as its own message and length, unless four bytes are all there is |
| `Framing.ShortFrameIncomplete` | src/rpc/rpc_connection.cc:234-242 | no proper prefix of a frame is taken for a message |
| `Framing.DeframeStream` | src/rpc/rpc_connection.cc:232-256 | on every prefix of a stream of frames the loop ends, hands up exactly the complete messages (an empty one at the very end excepted) and keeps exactly the leftover, which is shorter than one frame |
| `Framing.DeframeNonEmptyStream` | src/rpc/rpc_connection.cc:232-256 | without empty messages: exactly the complete messages, and all of them when all bytes are there |
| `Framing.EverythingCompleteIsHandedUp` | src/rpc/rpc_connection.cc:233-235 | all complete messages are handed up if and only if the bytes do not end with a zero-length frame |
| `Framing.EmptyMessageIsHeldBack` | src/rpc/rpc_connection.cc:233-235 | the example: a message with an empty form is handed up only when the next one arrives |
| `Framing.UnparseableFrameIsStuck` | src/rpc/rpc_connection.cc:244-256 | the example: a complete frame that no message has stays in the buffer and the loop goes round for ever |
| `Framing.FirstMessageExtends` | src/rpc/rpc_connection.cc:239-247 | bytes that arrive later do not change a complete first message |
| `Framing.ChunkingIndependence` | src/rpc/rpc_connection.cc:224-259 | handling two reads one after the other gives the messages, the leftover and the termination of one read of all the bytes |
| `Framing.AnySplitDelivers` | src/rpc/rpc_connection.cc:224-259 | any split of a stream into reads hands up exactly the messages complete so far and keeps exactly the leftover |
| `IoBuffers.GrowableIOBuffer.SetCapacity` | src/net/io_buffer.cc:35-44 | the new block keeps the common prefix and the offset is cut to the capacity |
| `IoBuffers.CapacitySteps` | src/rpc/rpc_connection.h:39-42 | doubling and halving within the limits stay at powers of two from 128 to 1 MB |
| `IoBuffers.ReadIOBuffer.constructor` | src/rpc/rpc_connection.cc:17-21 | an empty byte queue with capacity 1024 |
| `IoBuffers.ReadIOBuffer.Contents` | src/rpc/rpc_connection.cc:52-58 | the stored bytes are all bytes ever read without the consumed prefix |
| `IoBuffers.ReadIOBuffer.SetCapacity` | src/rpc/rpc_connection.cc:31-35 | reallocation to any capacity that holds them keeps the stored bytes and moves the write position with the block |
| `IoBuffers.ReadIOBuffer.IncreaseCapacity` | src/rpc/rpc_connection.cc:37-50 | fails exactly at the limit, else doubles, makes room and keeps the stored bytes |
| `IoBuffers.ReadIOBuffer.DidRead` | src/rpc/rpc_connection.cc:60-64 | the bytes written behind data_ join the end of the queue |
| `IoBuffers.ReadIOBuffer.DidConsume` | src/rpc/rpc_connection.cc:70-94 | memmove and shrinking take exactly the consumed bytes off the front; the capacity halves exactly when it was above the minimum and above twice the stored size |
| `IoBuffers.QueuedWriteIOBuffer.GetSizeToWrite` | src/rpc/rpc_connection.cc:144-153 | positive exactly when the queue is not empty and exactly when accepted bytes are unsent |
| `IoBuffers.QueuedWriteIOBuffer.Front` | src/rpc/rpc_connection.cc:123-125 | data_ points at the next unsent bytes of everything accepted |
| `IoBuffers.QueuedWriteIOBuffer.Append` | src/rpc/rpc_connection.cc:109-127 | accepts exactly what keeps the pending bytes within 1 MB, appends it to the accepted bytes and does not disturb the front |
| `IoBuffers.QueuedWriteIOBuffer.DidConsume` | src/rpc/rpc_connection.cc:129-142 | consumed bytes leave in order, pending stays accepted minus consumed and total_size_ their number |
| `RpcConnections.RpcConnection.SendMessage` | src/rpc/rpc_connection.cc:187-193 | accepts exactly what fits, moves a prefix of the unsent bytes, aborts exactly when a write is pending; a write error closes the connection, and nothing else does |
| `RpcConnections.RpcConnection.DoWriteLoop` | src/rpc/rpc_connection.cc:261-272 | moves exactly the next accepted bytes; closed exactly when the socket answers a write with an error, waiting exactly when it answers pending, else everything is sent or a write moved nothing |
| `RpcConnections.RpcConnection.HandleWriteResult` | src/rpc/rpc_connection.cc:279-287 | closes exactly on an error, else consumes what was written |
| `RpcConnections.RpcConnection.OnWriteReady` | src/rpc/rpc_connection.cc:274-277 | a completed write that failed closes the connection and moves nothing; one that succeeded, and the writes it leads to, move exactly the next accepted bytes |
| `RpcConnections.RpcConnection.HandUpFrame` | src/rpc/rpc_connection.cc:233-255 | one round takes exactly the first complete frame off the buffer and hands its message up; one that does not parse changes nothing and the loop goes round again |
| `RpcConnections.RpcConnection.HandUpRounds` | src/rpc/rpc_connection.cc:232-256 | the loop ends if and only if every complete frame parses, after one round more than there are messages |
| `RpcConnections.RpcConnection.HandUpFrames` | src/rpc/rpc_connection.cc:232-256 | the loop terminates, hands up all complete messages in order and leaves the rest |
| `RpcConnections.RpcConnection.HandleReadResult` | src/rpc/rpc_connection.cc:224-259 | everything handed up so far is the parse of all bytes read so far, and the buffer holds its leftover |
| `RpcConnections.RpcConnection.MakeRoom` | src/rpc/rpc_connection.cc:203-207 | there is room afterwards exactly when less than 1 MB is stored |
| `RpcConnections.RpcConnection.DoReadLoop` | src/rpc/rpc_connection.cc:200-217 | no byte is lost or reordered; closed exactly when the socket answers a read with an error or the end; it gives up only with 1 MB stored; else it ends with a read callback |
| `RpcConnections.RpcConnection.OnReadReady` | src/rpc/rpc_connection.cc:219-222 | a completed read that failed closes the connection and delivers nothing; one that succeeded is delivered, and the same holds for the loop it leads to |
| `RpcDelivery.NextConserves` | src/rpc/rpc_connection.cc:187-287 | every event keeps: accepted bytes are received, in flight or unsent, in this order |
| `RpcDelivery.ConservedDelivers` | src/rpc/rpc_connection.cc:200-259 | such a state delivers a prefix of the accepted messages, all of them once no byte is under way, with a leftover below 1 MB |
| `RpcDelivery.EveryTraceDelivers` | src/rpc/rpc_connection.cc:187-287 | end-to-end delivery in every state of every interleaving |
| `RpcDelivery.DeliveredGrows` | src/rpc/rpc_connection.cc:224-259 | what has been handed up is never taken back or reordered later |
| `RpcDelivery.NeverStalls` | src/rpc/rpc_connection.cc:261-277 | without zero writes, unsent bytes always have a write callback that will move them |
| `RpcDelivery.EverythingArrives` | src/rpc/rpc_connection.cc:200-277 | from any state with both ends up that was reached without zero writes, enough write events and then enough read events hand up everything accepted |
| `RpcDelivery.SecondSendAborts` | src/rpc/rpc_connection.cc:192-193 | the example: a call while a write is pending takes the process down |
| `RpcDelivery.PerformSend` | src/rpc/rpc_connection.cc:187-193 | the object's send is a step of the abstract link |
| `RpcDelivery.PerformRead` | src/rpc/rpc_connection.cc:200-259 | the object's reads are a step of the abstract link, and giving up means a full megabyte of leftover |
| `RpcDelivery.StepReceiver` | src/rpc/rpc_connection.cc:200-217 | the reader never refuses what the writer accepted |
| `RpcDelivery.RunLink` | src/rpc/rpc_connection.cc:109-153 | the real buffers and loops under any schedule refine the abstract link, deliver in every state and never refuse |
| `RpcCalls.SharedKey` | src/rpc/rpc_connection.cc:180 | two calls share an id only after 2^32 calls |
| `RpcCalls.RpcChannel.CallMethod` | src/rpc/rpc_connection.cc:174-194 | ids count up modulo 2^32; a call that waits under the same id loses its entry |
| `RpcCalls.RpcChannel.OnResponse` | src/rpc/rpc_connection.cc:323-340 | a known id runs its own completion once, also when the completion makes calls, and its entry is erased whoever holds it then; an unknown or repeated id changes nothing |
| `RpcCalls.EveryRunKeeps` | src/rpc/rpc_connection.cc:174-194 | in every run each call waits, was answered or is lost, and only one of these |
| `RpcCalls.LostExactly` | src/rpc/rpc_connection.cc:323-340 | a call is lost in a run if and only if one is made while an earlier one waits under the same id |
| `RpcCalls.NestedCallIsLost` | src/rpc/rpc_connection.cc:337-339 | the example: a completion that makes 2^32 calls erases the entry of the last |
| `RpcCalls.RunCalls` | src/rpc/rpc_connection.cc:174-194 | in every run of the object no completion runs twice, or for an id that differs from its own modulo 2^32, each call is in one place, and one is lost exactly when ids overlap |
| `RpcExchange.NextKeeps` | src/rpc/rpc_connection.cc:174-359 | calls, answers and both links keep: requests are those of the calls, responses answer requests that were handed up, completions follow the responses |
| `RpcExchange.ResponseComesFromCall` | src/rpc/rpc_connection.cc:342-359 | a response handed up is the service's answer to the request of the call whose id it carries |
| `RpcExchange.CompletionsAreGenuine` | src/rpc/rpc_connection.cc:289-340 | in every run with at most 2^32 calls each response completes exactly one call, with the answer to the very request that this call sent, whatever the links and the service do |
| `RpcExchange.AllCallsComplete` | src/rpc/rpc_connection.cc:323-340 | when every call was answered and nothing is under way, every call has been completed |
| `RpcExchange.AnswersComplete` | src/rpc/rpc_connection.cc:323-359 | from any state reached without zero writes on the way back, both of whose ends are up: after enough write events and then enough read events there, every accepted answer has completed the call whose request it answers |
| `CommandExecutors.GuessParallelism` | src/common/util.cc:22-32 | at least two and more than the number of processors |
| `CommandExecutors.SubmitKeeps` | src/common/command_executor.cc:30-43 | a submission keeps conservation, bound and non-stranding |
| `CommandExecutors.RunPostedKeeps` | src/common/command_executor.cc:58-65 | so does a posted task, even when it has to queue again |
| `CommandExecutors.FinishExitKeeps` | src/common/command_executor.cc:54-66 | so does the part of an exit after the observers |
| `CommandExecutors.EveryRunKeeps` | src/common/command_executor.cc:30-66 | after any events every command is in exactly one of queued, posted, running, finished, at most parallelism + 1 run, and a non-empty queue means running plus posted exceeds parallelism |
| `CommandExecutors.FirstInFirstOut` | src/common/command_executor.cc:30-66 | in every run the commands that have had to wait are taken by the message loop in the order in which they came, those still posted before those still queued |
| `CommandExecutors.FinishExitKeepsOrder` | src/common/command_executor.cc:58-65 | an exit posts the front of the queue behind what is posted, and nothing else moves |
| `CommandExecutors.WorkCanProceed` | src/common/command_executor.cc:30-66 | while a command is unfinished some event can still happen |
| `CommandExecutors.EverythingFinishes` | src/common/command_executor.cc:30-66 | with no further submissions at most twice the unfinished commands plus the posted ones events can occur, and once as many have, or no other can, every command is finished |
| `CommandExecutors.CanFinish` | src/common/command_executor.cc:45-66 | from every state some events finish every command |
| `CommandExecutors.Overtaken` | src/common/command_executor.cc:30-66 | an exit, a submission and then the posted task leave the same command queued behind a new running one |
| `CommandExecutors.OvertakenForEver` | src/common/command_executor.cc:30-66 | so a command can stay queued through a run of any length |
| `CommandExecutors.WaitingIsReached` | src/common/command_executor.cc:30-43 | one command more than may run leads to such a state at every parallelism |
| `CommandExecutors.CommandExecutor.RunCommand` | src/common/command_executor.cc:30-43 | starts the command if fewer than parallelism + 1 run, else puts it at the end of the queue, as the modelled step |
| `CommandExecutors.CommandExecutor.RunPostedTask` | src/common/command_executor.cc:60-64 | the oldest posted command starts or goes to the end of the queue |
| `CommandExecutors.CommandExecutor.SubprocessExitCallback` | src/common/command_executor.cc:45-66 | the same for an exit whose observers submit commands while the exiting one still counts |
| `Plans.MinimalEdge` | src/ninja/dn_builder.cc:170-172 | in an acyclic plan any unfinished set has an edge that waits for none of it |
| `MasterStates.HandOutKeeps` | src/ninja/dn_builder.cc:171-172 | handing a ready edge out keeps every invariant, with the edge in the handler's hand |
| `MasterStates.PushKeeps` | src/ninja/dn_builder.cc:142-142 | listing that edge as outstanding keeps them |
| `MasterStates.TakeKeeps` | src/ninja/dn_builder.cc:176-177 | taking an outstanding edge back keeps them |
| `MasterStates.RunLocallyKeeps` | src/ninja/dn_builder.cc:217-219 | starting it locally keeps them, and its command leads back to it |
| `MasterStates.FinishKeeps` | src/ninja/dn_builder.cc:312-312 | finishing it keeps them, each edge at most once and after its inputs |
| `MasterStates.SendRemoteKeeps` | src/master/master_main_runner.cc:100-124 | asking a slave keeps them, whether the slave is known or not |
| `MasterStates.ReplyKeeps` | src/master/master_main_runner.cc:155-164 | a reply keeps them and other replies still find their edges |
| `MasterStates.SaturatedRuns` | src/ninja/dn_builder.cc:170-184 | when the loop has nothing to start, unfinished work means that a local command runs |
| `Masters.Builder.StartEdgeLocally` | src/ninja/dn_builder.cc:192-221 | a phony edge is finished, another runs locally, and after an error it is dropped |
| `Masters.Builder.StartNext` | src/ninja/dn_builder.cc:170-184 | starts a ready edge, and only if none is ready the oldest outstanding one; it runs then, is finished if phony, or is dropped after an error |
| `Masters.Builder.BuildLoop` | src/ninja/dn_builder.cc:162-190 | calls BuildFinished once if every edge is finished then and not otherwise; without errors a local command runs until then |
| `Masters.Builder.HasRemoteCommandRunLocally` | src/ninja/dn_builder.cc:149-160 | true exactly when the edge is not on the outstanding list |
| `Masters.Builder.StartEdgeRemotelly` | src/master/master_main_runner.cc:100-124 | a known slave is asked for the edge and the edge is entered under its hash; for an unknown one nothing changes and the answer is false |
| `Masters.Builder.StartRemotely` | src/ninja/dn_builder.cc:140-142 | the edge joins the end of the list in any case, and is on its way to the slave exactly if that is known |
| `Masters.Builder.RequestEdge` | src/ninja/dn_builder.cc:428-447 | one more edge is listed and on its way to the slave that asked, if that is known; or none is, and the slave waits for one edge more exactly if there is more to do |
| `Masters.Builder.ServePendingRequests` | src/ninja/dn_builder.cc:416-423 | each waiting slave is served once: it gets one edge, which is then on its way to it if it is known, and waits for one less, or it gets none and waits for one more if there is more to do; no other slave gets any |
| `Masters.Builder.EraseOutstanding` | src/ninja/dn_builder.cc:234-242 | exactly this edge leaves the list if it is there |
| `Masters.Builder.FinishCommand` | src/ninja/dn_builder.cc:223-242 | exactly this edge is finished once more, or dropped after an error; BuildFinished is called exactly when its command failed |
| `Masters.Builder.OnCommandFinished` | src/ninja/dn_builder.cc:407-426 | the edge is finished or dropped, slaves and executor are supplied; BuildFinished is called once for a failed command and once if no work remains |
| `Masters.Builder.OnLocalExit` | src/common/command_executor.cc:45-66 | the exit finishes or drops the edge of that subprocess and keeps the state settled; a failed command is reported by one call of BuildFinished |
| `Masters.Builder.TakeExited` | src/ninja/dn_builder.cc:409-412 | the command string of the exited subprocess leads back to the edge it was started for |
| `Masters.Builder.TakeReply` | src/master/master_main_runner.cc:153-164 | the request is no longer under way; a successful reply finds the entry of its own edge and erases just it, a failed one keeps it |
| `Masters.Builder.OnRemoteCommandDone` | src/master/master_main_runner.cc:145-184 | a remote answer, also one from a slave that has closed, finishes nothing by itself, finds its edge and keeps the state settled; the slave gets at most one edge, on its way to it if it is known, and no other request is touched |
| `Masters.Builder.OnFetchTargetsDone` | src/master/master_main_runner.cc:138-143 | finishes the edge exactly when it was not taken back, and is never what ends the build |
| `Masters.Builder.OnSlaveClose` | src/master/master_main_runner.cc:230-233 | losing a slave loses no edge and changes nothing else |
| `Masters.Builder.StartReadyEdges` | src/ninja/dn_builder.cc:116-123 | the executor is full or no ready edge is left |
| `Masters.Builder.FillSlave` | src/ninja/dn_builder.cc:134-144 | the slave gets processors + 1 edges, or fewer and then none is ready any more; each is on its way to it exactly if it is known |
| `Masters.Builder.FillSlaves` | src/ninja/dn_builder.cc:130-145 | every known slave gets its share, or no edge is ready any more, and nobody else gets any |
| `Masters.Builder.InitialalBuild` | src/ninja/dn_builder.cc:113-146 | leaves a settled state in which the slaves have their shares |
| `Masters.Runner.StartBuild` | src/master/master_main_runner.cc:65-97 | starts the build once, with the shares of the slaves known by then; a second start changes nothing |
| `Masters.Runner.OnSlaveSystemInfoAvailable` | src/master/master_main_runner.cc:186-212 | rejects exactly new slaves of another system, ignores known ones, and starts the build exactly when enough are there |
| `Masters.SettledIsSafe` | src/ninja/dn_builder.cc:162-190 | what the invariants mean for an observer: order, one place per edge, progress |
| `Masters.Perform` | src/ninja/dn_builder.cc:407-447 | each kind of event does to its edge or slave what the source says: an exit finishes, drops and reports the edge of its subprocess, an answer erases its request, a download finishes exactly an edge that was not taken back |
| `Masters.RunBuild` | src/ninja/dn_builder.cc:113-447 | for every plan and all events, from before the start on: each edge finished at most once and after its inputs, every handed-out edge in exactly one place; once started, BuildFinished was called once for each edge whose local command exited with failure and once more exactly when all is finished; without errors work remains exactly when a local command runs |
| `Masters.RunToTheEnd` | src/ninja/dn_builder.cc:162-190 | every build that is started ends, whatever happens before and in between, with all edges finished and BuildFinished called once if there was no error |
| `Masters.FetchTargets` | src/master/master_main_runner.cc:239-253 | succeeds exactly when the command succeeded, there are targets and every digest agrees |
| `BracketGrammar.ForwardExact` | script/cpplint.py:1385-1437 | a plain stack machine finds q from p exactly when the balanced grammar pairs them |
| `BracketGrammar.BackwardExact` | script/cpplint.py:1507-1571 | so does the backward machine |
| `BracketGrammar.PartnerIsUnique` | script/cpplint.py:1463-1504 | a bracket has at most one partner |
| `BracketMatchers.OperatorTail` | script/cpplint.py:1411-1411 | text that ends with "operator" and spaces ends with r or a space |
| `BracketMatchers.FindEndOfExpressionInLine` | script/cpplint.py:1385-1460 | the loop computes the scan whose refinement is proved below |
| `BracketMatchers.CloseExpression` | script/cpplint.py:1463-1504 | the same across lines, with the early answers for no bracket, `<<` and `<=` |
| `BracketMatchers.FindStartOfExpressionInLine` | script/cpplint.py:1507-1581 | the loop computes the backward scan, skips included |
| `BracketMatchers.ReverseCloseExpression` | script/cpplint.py:1584-1619 | the same across lines |
| `BracketTheorems.EndStepRefines` | script/cpplint.py:1398-1457 | no `<`, `>`, `;`, `->`, `<<` or operator rule changes the real brackets on the stack |
| `BracketTheorems.FindEndRefines` | script/cpplint.py:1385-1460 | from a real bracket a line's scan is the plain machine's |
| `BracketTheorems.StartStepRefines` | script/cpplint.py:1523-1579 | the same for each backward rule, skipped characters included |
| `BracketTheorems.FindStartRefines` | script/cpplint.py:1507-1581 | and for a line's backward scan |
| `BracketTheorems.CloseIsExact` | script/cpplint.py:1463-1504 | from a real bracket CloseExpression ends after q if and only if the grammar pairs the two in the concatenated lines |
| `BracketTheorems.CloseGivesUp` | script/cpplint.py:1503-1504 | it gives up if and only if there is no partner |
| `BracketTheorems.CloseIgnoresLineBreaks` | script/cpplint.py:1495-1501 | the answer does not depend on where the line breaks are |
| `BracketTheorems.ReverseIsExact` | script/cpplint.py:1584-1619 | from a real bracket ReverseCloseExpression returns p if and only if the grammar pairs the two |
| `BracketTheorems.CountedAngleFindsNoBracket` | script/cpplint.py:1538-1539 | a scan that starts at a counted `>` can only end at a `<` |
| `BracketTheorems.MatchersAreInverse` | script/cpplint.py:1385-1619 | forward from p ends after q if and only if backward from q returns p, unless q is an ignored `>` |
| `BracketTheorems.IgnoredAngleDefers` | script/cpplint.py:1529-1537 | from an ignored `>` the backward answer is that of the last significant character before it |
| `BracketTheorems.InverseExactlyWhen` | script/cpplint.py:1385-1619 | for a given q the matchers are inverse on all brackets if and only if q is not an ignored `>` whose nearest significant character before it is a closing bracket that the grammar pairs |
| `BracketTheorems.ArrowIsNotInverse` | script/cpplint.py:1529-1537 | the example `(a)->` |
| `BracketTheorems.GetTextInside` | script/cpplint.py:4701-4731 | returns the text up to the grammar's partner, and nothing if and only if there is none |
| `BracketTheorems.CloseOnOneLine` | script/cpplint.py:1463-1504 | on one line CloseExpression names that same partner |
| `AngleBrackets.OperatorAndSpaces` | script/cpplint.py:1411-1411 | the pattern finds the word "operator" with nothing but white space behind it |
| `AngleBrackets.FitsPasses` | script/cpplint.py:1398-1457 | text in which the `<` and `>` that count nest with the brackets leaves the stack as it was; what counts is written out, with `->`, `<<` and operator names |
| `AngleBrackets.CloseAtAngle` | script/cpplint.py:1463-1504 | from a `<` before such text CloseExpression ends behind the `>` that follows it, and gives up at `<=`, a semicolon or a closing bracket |
| `AngleBrackets.FindStartStepsBack` | script/cpplint.py:1523-1579 | the backward scan passes letters, skips `->`, `<<`, ` >= ` and operator names by two characters, and pushes and pops the brackets that count |
| `AngleBrackets.ReverseAtAngle` | script/cpplint.py:1584-1619 | from a `>` that counts ReverseCloseExpression returns the `<` before such text, and gives up at a semicolon or an opening bracket |
| `AngleBrackets.AngleMatchersAreInverse` | script/cpplint.py:1385-1619 | where the text has both structures the matchers are inverse from angle brackets too |
| `TemplateArguments.InTemplateArgumentList` | script/cpplint.py:2265-2315 | the loop computes the look-ahead, through `<` by CloseExpression and on into the following lines |
| `TemplateArguments.FirstWordDecides` | script/cpplint.py:2279-2315 | the first character that says anything, any number of lines ahead, decides: yes at `>`, `=`, `[`, `]` and `.`, no at `{`, `}` and `;`, and at `<` it is the answer behind the list that it opens, or no if that does not end |
| `TemplateArguments.SilenceSaysNo` | script/cpplint.py:2274-2315 | no, if no such character follows |
| `TemplateArguments.TemplateArgumentExample` | script/cpplint.py:2279-2289 | the example of the comment: a parameter `class B>` on its own line is a template argument, `class B` before a brace is none |
| `TemplateArguments.LookAheadShift` | script/cpplint.py:2265-2315 | it reads nothing before its own line |
| `TemplateArguments.DecidedExtends` | script/cpplint.py:2265-2315 | what the first lines decide, no later line changes |
| `Nesting.NestingState.UpdatePreprocessor` | script/cpplint.py:2317-2371 | checkpoints are taken, restored and dropped as the directives say; stray ones change nothing |
| `Nesting.NestingState.UpdateParentheses` | script/cpplint.py:2399-2419 | parentheses and inline assembly of the innermost block |
| `Nesting.AsmLasts` | script/cpplint.py:2405-2419 | inline assembly that a line starts lasts until its parentheses are closed, over any number of lines |
| `Nesting.AsmStays` | script/cpplint.py:2405-2419 | where no line starts inline assembly none is seen, except in the block of an asm brace, which stays one |
| `Nesting.NestingState.UpdateNamespaces` | script/cpplint.py:2424-2440 | one block per namespace declared on the line |
| `Nesting.NamespacesLieInOrder` | script/cpplint.py:2424-2440 | every namespace of a line has its block, in order, with its own brace |
| `Nesting.ClassHeadOpens` | script/cpplint.py:2446-2498 | a class head opens a block with its name, its default or given access and whether it is derived; its brace is still to come |
| `Nesting.TemplateArgumentOpensNothing` | script/cpplint.py:2459-2466 | a template parameter opens none |
| `Nesting.AccessIsKept` | script/cpplint.py:2473-2483 | an access keyword changes the access of the innermost class, which holds until the next one |
| `Nesting.NestingState.ConsumeTokens` | script/cpplint.py:2500-2536 | braces, semicolons and closing parentheses change the stack in order |
| `Nesting.MatchedBracesRestore` | script/cpplint.py:2500-2536 | inside a block whose brace was seen, tokens with matched braces leave the stack as it was |
| `Nesting.HeadWithBody` | script/cpplint.py:2508-2513 | a class or namespace head takes the next brace as its own and goes with its closing brace |
| `Nesting.HeadWithoutBody` | script/cpplint.py:2520-2531 | a head that meets `;` or `)` first is dropped |
| `Nesting.BraceOpensBlock` | script/cpplint.py:2508-2518 | a brace that no head takes opens a block of the kind that its line says, which lines without inline assembly keep |
| `Nesting.NestingState.Update` | script/cpplint.py:2374-2536 | one line's effect on the stack and the checkpoints, with the look-ahead over the lines that follow |
| `Nesting.ProcessLines` | script/cpplint.py:2374-2536 | a whole file, line by line, gives the run whose deletions are studied below |
| `NestingRegions.StrippedRunsAlike` | script/cpplint.py:2317-2371 | from every state and for every list of lines, well nested or not, whose kept class heads see the same: after each line outside the `#else` branches, and so at the end, the state is that of the lines without them |
| `NestingRegions.HarmlessExactlyWhen` | script/cpplint.py:2374-2536 | the two runs open the same classes and agree on every kept line if and only if every class head that is kept and asked about gets the same look-ahead with and without the branches |
| `NestingRegions.SameStatesExactly` | script/cpplint.py:2374-2536 | where each head ends its line or is decided on it, as `class Foo {` and `class Foo;` are, the states alone agree if and only if that holds |
| `NestingRegions.DecidedHeadsAgree` | script/cpplint.py:2265-2315 | it holds when after each class head a deciding character comes before the next `#else` or `#elif`, or no line is deleted any more |
| `NestingRegions.DeletionChangesStack` | script/cpplint.py:2459-2466 | the example: `class Foo` before an `#else` branch with `int x = 1;` is open after the `#endif` only without the branch |
| `NestingRegions.StrippedIsFirstBranches` | script/cpplint.py:2328-2333 | on well-nested regions that deletion removes exactly the branches of the tree, at every depth |
| `NestingRegions.RegionsCountOnce` | script/cpplint.py:2317-2371 | well-nested code whose kept heads see the same leaves the stack of its first branches and every checkpoint as it was |
| `NestingRegions.DecidedRegionsCountOnce` | script/cpplint.py:2317-2371 | the same under the condition that a reader can check, from every state |
| `NestingRegions.BranchesStartAlike` | script/cpplint.py:2352-2353 | every `#else` or `#elif` branch starts with the stack that the `#if` found |
| `NestingRegions.RunsThrough` | script/cpplint.py:2335-2371 | well-nested code leaves every checkpoint as it was, whatever class heads see |
| `ConnectFallback.TcpClientSocket.Connect` | src/net/tcp_client_socket.cc:64-85 | answers at once or waits; a socket that is connecting or connected answers OK and nothing changes |
| `ConnectFallback.TcpClientSocket.Bind` | src/net/tcp_client_socket.cc:42-62 | opens the socket if needed and binds it, once, before connecting |
| `ConnectFallback.TcpClientSocket.DoConnect` | src/net/tcp_client_socket.cc:112-152 | opens and binds the socket unless it is open, tries the current address and says whether to wait |
| `ConnectFallback.TcpClientSocket.DoConnectComplete` | src/net/tcp_client_socket.cc:154-175 | stops on success, else closes and goes to the next address or gives the error |
| `ConnectFallback.TcpClientSocket.DoConnectLoop` | src/net/tcp_client_socket.cc:87-110 | terminates connected to the first address that connects, waiting, or with the last address's error after all failed, having tried the addresses in order |
| `ConnectFallback.TcpClientSocket.DidCompleteConnect` | src/net/tcp_client_socket.cc:267-276 | goes on to the next address or runs the callback once with the result |
| `ConnectFallback.TcpClientSocket.Disconnect` | src/net/tcp_client_socket.cc:177-188 | the socket is closed, so the pending attempt is never answered and its callback never runs |
| `ConnectFallback.StopsAt` | src/net/tcp_client_socket.cc:160-175 | the first address that connects, or the last |
| `ConnectFallback.ResultOfFallback` | src/net/tcp_client_socket.cc:154-175 | the result is OK exactly when some address connects, otherwise the last address's error |
| `ConnectFallback.RunSession` | src/net/tcp_client_socket.cc:42-188 | a whole connection, bound before or not, with any mix of immediate, failing and waiting attempts, possibly cancelled: addresses in order from the first, and the callback exactly when it had to wait and was not cancelled |
| `ConnectFallback.RunSessions` | src/net/tcp_client_socket.cc:64-188 | any number of connections on one socket, each independent of the ones before |
| `SocketCompletion.SocketLibevent.Accept` | src/net/socket_libevent.cc:145-167 | issuing is the modelled step and the returned value tells whether a callback follows |
| `SocketCompletion.SocketLibevent.Connect` | src/net/socket_libevent.cc:169-192 | the same for Connect, which shares the write slot |
| `SocketCompletion.SocketLibevent.Read` | src/net/socket_libevent.cc:229-254 | the same for Read |
| `SocketCompletion.SocketLibevent.Write` | src/net/socket_libevent.cc:257-272 | the same for Write |
| `SocketCompletion.SocketLibevent.WaitForWrite` | src/net/socket_libevent.cc:274-295 | the same for the wait inside Write |
| `SocketCompletion.SocketLibevent.StopWatchingAndCleanUp` | src/net/socket_libevent.cc:455-482 | every pending operation is cancelled and every slot and watcher cleared |
| `SocketCompletion.SocketLibevent.CloseSocket` | src/net/socket_libevent.cc:335-345 | the same, and the socket is closed |
| `SocketCompletion.SocketLibevent.AcceptCompleted` | src/net/socket_libevent.cc:382-392 | slot and watcher are cleared, then the callback runs with exactly this result and may act; a pending result changes nothing |
| `SocketCompletion.SocketLibevent.ReadCompleted` | src/net/socket_libevent.cc:426-436 | the same for Read |
| `SocketCompletion.SocketLibevent.WriteCompleted` | src/net/socket_libevent.cc:443-453 | the same for Write |
| `SocketCompletion.SocketLibevent.ConnectCompleted` | src/net/socket_libevent.cc:402-419 | slot, watcher and flag are cleared, then the callback runs with exactly this result |
| `SocketCompletion.SocketLibevent.OnFileCanReadWithoutBlocking` | src/net/socket_libevent.cc:347-354 | completes a waiting Accept, else the waiting Read, with the result of the retried call |
| `SocketCompletion.SocketLibevent.OnFileCanWriteWithoutBlocking` | src/net/socket_libevent.cc:356-363 | completes the waiting Connect or Write with the result of the retried call |
| `SocketCompletion.IssueKeeps` | src/net/socket_libevent.cc:145-295 | issuing keeps: slots hold exactly the pending operations, watchers are on exactly for full slots, callbacks ran once each |
| `SocketCompletion.FinishKeeps` | src/net/socket_libevent.cc:382-453 | so does completing |
| `SocketCompletion.ClosedKeeps` | src/net/socket_libevent.cc:455-482 | so does closing |
| `SocketCompletion.DoAllKeeps` | src/net/socket_libevent.cc:382-392 | so does whatever a callback does, and finished operations keep their fate |
| `SocketCompletion.ReportsFindCallback` | src/net/socket_libevent.cc:347-363 | a delivered report always finds the callback that the handlers demand |
| `SocketCompletion.StepRuns` | src/net/socket_libevent.cc:347-363 | a report runs the callback of the operation that waits, with the result it gives; a pending result, and what the owner calls, run none |
| `SocketCompletion.RunSocket` | src/net/socket_libevent.cc:145-482 | every run of the object, callbacks that act included, keeps all of this |
| `SocketCompletion.RunsCarryResults` | src/net/socket_libevent.cc:382-453 | in every run each callback was run with the result of a report |
| `SocketCompletion.NoneRunsAfterClose` | src/net/socket_libevent.cc:335-345 | after Close no earlier operation runs its callback, whatever follows |
| `SocketCompletion.ReissueIsSafe` | src/net/socket_libevent.cc:426-436 | inside its own callback an operation may be issued again |
| `SocketCompletion.LostExactly` | src/net/socket_libevent.cc:169-192 | one act loses an operation exactly in the two named cases |
| `SocketCompletion.RunsLoseExactly` | src/net/socket_libevent.cc:145-295 | a run loses an operation if and only if one of its calls is of those two kinds |
| `SocketCompletion.EveryOperationHasOneFate` | src/net/socket_libevent.cc:145-482 | otherwise each operation returned at once, waits in a slot, ran its callback or was cancelled, and never with a pending result |
| `SocketCompletion.ConnectDisplacesWrite` | src/net/socket_libevent.cc:189-191 | the example of a Connect that takes a waiting Write's slot, given a kernel that lets a write wait on a socket that is not connected |
| `SocketCompletion.WatchErrorLosesRead` | src/net/socket_libevent.cc:243-249 | the example of a Read whose watch fails with an error that means pending |
| `EdgeWalks.CoveredIsComplete` | src/ninja/ninja_main.cc:24-33 | a set closed under producers contains all that its members reach |
| `EdgeWalks.EdgeSet.GetAllEdgesHelper` | src/ninja/ninja_main.cc:24-33 | terminates on cyclic graphs, adds only reachable edges and all producers of what it adds |
| `EdgeWalks.EdgeSet.GetAllEdges` | src/ninja/ninja_main.cc:163-170 | precisely the edges reachable from the default nodes |
| `EdgeWalks.EdgeWalk.FindAllEdges` | src/slave/slave_main_runner.cc:39-47 | each newly seen edge is emitted once, after its producers when the edges under way rank above it |
| `EdgeWalks.FindAllEdgesFrom` | src/slave/slave_main_runner.cc:39-47 | exactly the reachable edges, once each, and producers first when the graph is acyclic |
| `EdgeWalks.HashEdges` | src/slave/slave_main_runner.cc:94-98 | the CHECK passes exactly when the hashes are distinct, and the table then inverts the hash |
| `EdgeWalks.PostCreateThreads` | src/slave/slave_main_runner.cc:88-102 | an id is in the table exactly when it is the hash of an edge reachable from the default nodes |

## Left out

- `RpcConnections.RpcConnection.HandUpFrames`: requires complete frames to parse, because the source does not return otherwise (`RpcConnections.RpcConnection.HandUpRounds` proves that it is exactly then that it does not); `RpcDelivery.ConservedDelivers` proves that everything a sender accepted parses.
- `RpcConnections.RpcConnection.HandleReadResult`: the same requirement on the bytes read.
- `RpcConnections.RpcConnection.DoReadLoop`: the same requirement on the bytes in flight.
- `RpcConnections.RpcConnection.OnReadReady`: the same requirement on the bytes in flight.
- A frame length that wraps around when the four bytes of the prefix are added is taken not to parse; the source then reads past its buffer.
- 32-bit overflow of buffer sizes in `Append` for strings near 2 GB, and the setters of the buffer limits; the limits are the defaults.
- Protobuf itself, the dispatch of requests to services, and closures that are null; the request map's entry for a call is its number.
- What `Close` leads to in the connection's owner, object lifetime, reference counts and deletion order.
- ninja's own plan, dependency scan, pools, restat and logs; the plan here is a graph with wanted, handed-out and finished edges. In ninja, a plan that holds only phony edges counts as having nothing to do.
- `ExtractDeps` and the file work in `FinishCommand`; whether it succeeds is an input.
- A plan with nothing to do: `RunBuild` in ninja then reports the end without starting the build.
- `RpcExchange.CompletionsAreGenuine`: is about the relation of links and channel; the objects refine the links (`RpcDelivery.RunLink`) and the channel (`RpcCalls.RunCalls`), and no one method drives them together. Calls go one way only, and the calls that a completion makes are events of their own; `RpcCalls.RpcChannel.OnResponse` has them nested.
- The third component that cpplint's matchers return, the line itself.
- `AngleBrackets.CloseAtAngle`: is about lists on one line whose brackets nest; a `<` that a closing bracket or a semicolon drops inside a nested bracket is not part of such a text.
- `AngleBrackets.ReverseAtAngle`: the same.
- `Nesting.NestingState.Update`: does not model `previous_stack_top`, the error messages, nor the indentation and last line of a class, the latter of which is also counted through deleted lines; what the patterns other than the look-ahead find in a line is given with the line, and block records are values because the source copies them deeply at every checkpoint.
- `ConnectFallback.TcpClientSocket.Connect`: does not model TCP FastOpen.
- `SocketCompletion.SocketLibevent.Read`: does not model the buffer, its length and the bytes; they are the subject of `RpcConnections`.
- `SocketCompletion.SocketLibevent.Write`: does not model the buffer, its length and the bytes.
- `SocketCompletion.SocketLibevent.WaitForWrite`: does not model the buffer, its length and the bytes.
- Windows sockets, subprocesses, downloads, digests, the web interface, status output and configuration: foreign calls and I/O.
- The slave's `RunCommand` path beyond its table of edges, and cpplint's style rules: many shallow cases.
