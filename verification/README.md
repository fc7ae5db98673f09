# Verification model of the MATLAB multi-engine and engine-server code

This project models, in Dafny, four connected parts of the repository and proves properties of the model.

* **Multi-engine scheduler** (`Scheduler*.dfy`, `EngineRun.dfy`, `Task.dfy`, `Gather.dfy`). One submitter and any number of
  engine threads share a FIFO of subtasks, a start semaphore, a done counter and a finished semaphore. The protocol is a
  transition system with one label per atomic step, the objects behind it are classes proved equal to its steps, and the MATLAB
  engine is an uninterpreted function of function name, inputs and subtask index.
* **Serialization stack** (`Octets.dfy`, `NwArray.dfy`, `Raw1.dfy`, `Raw1Codec.dfy`, `Versioning.dfy`, `Frames.dfy`,
  `Wire.dfy`, `Serializer.dfy`, `ServerCalls.dfy`, `Conversation.dfy`, `Proxy.dfy`, `Dialogue.dfy`, `Lockstep.dfy`). Loops
  over a reused buffer are proved against functions on byte sequences: RAW1 records, 64-byte message headers, C strings, the
  (version, type) registry with its per-connection cache, partial sends and receives, the server's reply to a request, whole
  conversations from one end to the other and back, the client proxy, and both ends of a connection in alternation. A socket
  is the bytes sent, the bytes still to come, and what the network has in store for the coming calls: how many bytes a call
  moves, whether it stalls, fails or times out. All of it is arbitrary.
* **Connection life cycle and job hand-over** (`FifoFast.dfy`, `ConnectionList.dfy`, `ResourceJobs.dfy`, `ServerLifecycle.dfy`, `ServerTheorems.dfy`,
  `ServerService.dfy`, `MatHandle.dfy`). The pooled linked queue and the doubly linked list are heap classes with ghost sequences; the resource thread,
  the contact threads, the clients and shutdown are a transition system, and the single engine thread with its callers is another,
  which is part of the first one's state: a contact thread that has received a request waits for its call in it.
* **Argument parser** (`ArgumentParser.dfy`). The loop that compacts `argv` in place, against a recursive list parser.

Run `dafny verify dfyconfig.toml` to verify everything.

## Findings about the code

These follow from the proofs; each is a lemma or a clause named below.

* A stop signal that reaches an engine's thread after it has looked at its loop condition and before it blocks is lost, and the
  join after it waits for good: `SchedulerTheorems.ShrinkCanWaitForever`. A removal that runs until nothing more can happen has
  returned if and only if no signal was lost in this way, unless the thread took a spare start token later:
  `SchedulerTheorems.RemovalReturnsIff`, `SchedulerTheorems.RemovalStuckIff`. However the threads are scheduled it returns if and only
  if each engine to be removed has exited, or sleeps and no start token is left: `SchedulerRemoval.RemovalAlwaysReturnsIff`. The destructor, which posts one token per engine,
  always completes: `SchedulerTheorems.ShutdownCompletes`.
* A call that throws marks its subtask as failed only when at least one output is requested: `EngineRun.ThrowingCallIsReportedIffOutputsAsked`.
* The RAW1 argument count includes absent arrays, which get no record: `Raw1.CountIsRightIffNoneAbsent`.
* The decoder's test for a record that does not fit is right for lengths that are not negative if and only if its int32 sum does
  not overflow: `Raw1.StopsRightlyIff`, `Raw1.TooLongPasses`.
* A negative serialization type, sign-extended, drowns the version in the packed key: `Versioning.KeysCollideIff`. A lookup gives
  what was registered for its own pair if and only if the type is not negative or the first registration of that type agrees:
  `Versioning.LookupIsOwnIff`.
* `ReceiveHeader` reports a header if and only if one came, or every single receive call moved nothing and the last one would have
  blocked when the time was up: `Serializers.Serializer.ReceiveHeader`. That can happen: `Serializers.HeaderOutOfNothing`.
* A body counts as complete if and only if all announced bytes came, or the announced length is not positive and equals the code
  with which receiving nothing ends: `Serializers.Serializer.ReceiveBody`. With the length -46 the message before is delivered once
  more: `Serializers.DeliveredAgain`.
* The buffer has room for an announced rest if and only if its length and 64 add up to less than 2^31; else `Resize` does not grow
  it: `Serializers.Serializer.Resize`.
* A synchronous call that the eight-entry job queue refuses never returns, and eight queued calls are enough for that:
  `MatHandle.RefusedSyncNeverReturns`, `MatHandle.RefusalHappens`. A connection whose call is refused keeps the server from ever
  stopping: `ServerTheorems.RefusedCallPreventsEnd`, and the ninth connection's can be: `ServerTheorems.NinthCallIsRefused`. Stopping
  completes if and only if no contact thread holds a refused call, or is in a receive that closing its socket does not end:
  `ServerTheorems.StopCompletesIff`, `ServerTheorems.StopAtRestIff`.
* A contact thread whose request for deletion meets a full queue is at its end, but its item is not destroyed before the server
  stops; otherwise it is, exactly once: `ServerService.RunningServerAtRest`, `ServerService.RequestIsKeptUnlessRefused`.
* A resource thread that starts after the stop request sets the run flag again; it stays up until the request to finish is handled,
  which a full queue may have refused: `ServerTheorems.FlagAfterStop`.
* When a reply's header is read but not its body, the proxy forgets the request and a second one can be under way:
  `Proxies.KeepsLockstepIff`, `Proxies.LostBodyLetsTwoBeOutstanding`. After a failed send the proxy stays busy until a receive fails,
  although no reply is owed: `Proxies.FailedSendAwaitsNothing`, `Proxies.BusyUntilFailure`.

## Model

| member | source | states |
|---|---|---|
| SchedulerTheorems.ParallelRefinesSequential | src/multi/multi_engine.cpp:156-273 | When a round of n subtasks returns, under every interleaving of any number of engines and any history of earlier rounds, resizes and failures, subtask j reports exactly what running index j alone reports, and the task's error flag is set if and only if some subtask of this round failed: what the engine's function gives for the submitted inputs with each text that begins with the marker replaced by j |
| SchedulerTheorems.WakesOnlyWhenAllDone | src/multi/multi_taskscheduler.cpp:38-45 | In every state from which the submitter can wake, all n subtasks of the present round are done, run and marked, and nothing is queued or in an engine's hand |
| SchedulerTheorems.EachRoundFinalizesOnce | src/multi/multi_task.cpp:103-114 | Between the preparation of a round and its return FinalizeTask is called exactly once, and only with the done counter at n |
| SchedulerTheorems.NothingRunsWithoutEngine | src/multi/multi_engine.cpp:86-163 | In a run in which no engine has been started no round returns |
| SchedulerTheorems.FinishedNeverAboveOne | src/multi/multi_taskscheduler.cpp:94-102 | The finished semaphore holds at most one token, and none outside a round, so no round wakes on an earlier round's token |
| SchedulerTheorems.NoSubtaskStranded | src/multi/multi_taskscheduler.cpp:38-85 | Start tokens, woken engines and posts still to make cover the queued subtasks in every reachable state, and equal them when there was no spurious wake-up, no shutdown post and no signal that woke a thread |
| SchedulerTheorems.InternalStepsDecrease | src/multi/multi_engine.cpp:156-163 | A measure over queue, tokens and program counters strictly decreases on every step that is neither spurious nor a new command |
| SchedulerTheorems.RoundNotStuck | src/multi/multi_engine.cpp:156-163 | With a live engine and an unfinished round some internal step is always enabled |
| SchedulerTheorems.EveryMaximalRunReturns | src/multi/multi_taskscheduler.cpp:38-45 | A run of internal steps within a round is no longer than the measure, and one that cannot be continued has returned from calcAndWait |
| SchedulerTheorems.ShutdownCompletes | src/multi/multi_taskscheduler.cpp:18-27 | From any state that satisfies the invariant and in which the destructor has begun, every maximal run ends with all threads exited and all joins returned, each thread having taken at most one more token |
| SchedulerTheorems.ShrinkCanWaitForever | src/multi/multi_taskscheduler.cpp:79-84 | A reachable state in which the stop signal has been lost, the removal of an engine waits in its join, and no step is enabled |
| SchedulerTheorems.RemovalStuckIff | src/multi/multi_engine.cpp:86-99 | While engines are removed nothing can happen any more if and only if the thread to be joined sleeps in its wait, every other sleeps or has exited, and there is no start token |
| SchedulerTheorems.DoomedIffLost | src/multi/multi_engine.cpp:86-99 | In any run of a removal, the thread that is joined is on its way into its wait, or in it, if and only if the stop signal found it between its loop condition and its wait and it has taken no token since |
| SchedulerTheorems.RemovalKeepsTheFirst | src/multi/multi_taskscheduler.cpp:68-85 | A removal that has returned leaves exactly the engines it was to keep, the first ones, and has told none of them to stop |
| SchedulerTheorems.RemovalReturnsIff | src/multi/multi_taskscheduler.cpp:68-85 | A removal of engines is bounded, and one that cannot be continued has returned if and only if no stop signal was lost without a later token, and then as many engines are left as it was to keep |
| SchedulerRemoval.RemovalAlwaysReturnsIff | src/multi/multi_taskscheduler.cpp:68-85 | From the state in which a removal begins, every run that cannot be continued has returned if and only if each engine to be removed has exited, or sleeps with no start token left |
| SchedulerSteps.StepKeeps | src/multi/multi_engine.cpp:86-163 | Every step of every thread keeps the whole invariant: one place per subtask, the counts, the slot index, the results, the error flag |
| EngineRun.RunForgetsTheSlot | src/multi/multi_engine.cpp:192-273 | What a subtask reports after running does not depend on what its slot held before |
| EngineRun.ThrowingCallIsReportedIffOutputsAsked | src/multi/multi_engine.cpp:237-270 | A call that makes nothing available is reported as failed if and only if an output was requested |
| TaskObjects.SubTask.RunInEngine | src/multi/multi_engine.cpp:206-270 | The output loop with its break, exception in first place and error flag leaves the slot of the specification, which holds all outputs the engine's function gives for the subtask's own inputs, or tells its failure |
| TaskObjects.SubTaskStore.Resize | include/common/impl.resizablestore.hpp:65-78 | Capacity only grows, existing entries are kept, new ones are constructed once with their position as index |
| TaskObjects.Task.PrepareTaskForCalc | src/multi/multi_task.cpp:129-144 | The store afterwards is the one the transition system prepares, with counter and error flag reset |
| TaskObjects.Task.MarkError | src/multi/multi_task.cpp:24-28 | The task's flag becomes set when the finished subtask failed, and stays as it was otherwise |
| TaskObjects.Task.SetSubTaskDone | src/multi/multi_task.cpp:103-114 | The counter goes up by one and the result is true exactly from the n-th call on |
| Gather.CollectOutputs | src/multi/mex_multiengine.cpp:166-186 | The collecting loops produce the exception in the first output of the first failed subtask, or nothing if that is none, and without a failure one cell per output and subtask |
| Gather.ParallelEqualsSequential | src/multi/mex_multiengine.cpp:148-187 | For every interleaving, what is handed to the caller equals calling index 0, 1, .. one after the other and stopping at the first failure; the exception is that of the smallest failing index, decoded from what the engine's function gives for that index, and each cell is the decoded output of its index |
| Octets.WrapProduct | src/seri_versions/matlab_engine_serializer_version5_raw1.cpp:57 | An int32 product of wrapped factors is the wrapped product |
| Octets.ReadBack32 | src/seri_versions/matlab_engine_serializer_version5_raw1.cpp:94-97 | An int32 written as four bytes is read back, negative ones included |
| Octets.ReadBack64 | src/seri_versions/matlab_engine_serializer_version5_raw1.cpp:111-119 | A count stored as int64 is read back through the conversion to int32 |
| NwArrays.NwArray.Resize | src/mat_matrix/mat_matrix.cpp:86-108 | Any destination, or none, ends up with the requested dimensions, class and element size, and with enough storage, whose beginning is kept |
| NwArrays.OneElement | src/mat_matrix/mat_matrix.cpp:163-206 | A single element has as many data bytes as a value of its class |
| Raw1.RecordsAligned | src/seri_versions/matlab_engine_serializer_version5_raw1.cpp:52-64 | Every record starts on a multiple of eight and is followed by fewer than eight bytes of padding |
| Raw1.PrepassIsExact | src/seri_versions/matlab_engine_serializer_version5_raw1.cpp:42-105 | With the length the pre-pass returns the encoder's fit check never fires |
| Raw1.RoundTrip | src/seri_versions/matlab_engine_serializer_version5_raw1.cpp:69-152 | For any arrays, any buffer contents and any length of at least 8, decoding what was encoded restores exactly the longest leading run of arrays that fits, cut to the output slots, and no read leaves the stream |
| Raw1.CountIsRightIffNoneAbsent | src/seri_versions/matlab_engine_serializer_version5_raw1.cpp:85-111 | The transmitted count equals the number of records if and only if no argument is absent |
| Raw1Codec.SerializeToResource | src/seri_versions/matlab_engine_serializer_version5_raw1.cpp:42-66 | The int32 pre-pass returns the true length if and only if that length is below 2^31 |
| Raw1Codec.WriteStream | src/seri_versions/matlab_engine_serializer_version5_raw1.cpp:69-113 | The encoding loop writes the specified stream over whatever the buffer held, and nothing outside its window |
| Raw1Codec.CheckRecord | src/seri_versions/matlab_engine_serializer_version5_raw1.cpp:136-143 | The test that ends decoding, with int32 arithmetic, on the bytes of the window |
| Raw1.StopsRightlyIff | src/seri_versions/matlab_engine_serializer_version5_raw1.cpp:136-143 | For a record length that is not negative the test stops exactly when the padded data does not fit, if and only if its sum stays in the int32 range or the padded length does not |
| Raw1.PassedLiesInside | src/seri_versions/matlab_engine_serializer_version5_raw1.cpp:136-150 | A record that passes lies inside the stream, as long as that sum stays in the int32 range |
| Raw1.TooLongPasses | src/seri_versions/matlab_engine_serializer_version5_raw1.cpp:136-143 | A stream of 24 bytes with a record of nearly 2^31 bytes that passes the test |
| Raw1Codec.ReadStream | src/seri_versions/matlab_engine_serializer_version5_raw1.cpp:124-152 | The decoding loop fills the leading slots with the arrays of the stream, whatever they held, and leaves the other slots |
| Versioning.KeysCollideIff | include/matlab_engine_serializer_versioning.hpp:15-16 | Two (version, type) pairs pack to the same 64 bits if and only if they are equal or share a negative type |
| Versioning.InsertExact | src/util/matlab_engine_serializer_versioning.cpp:22-40 | Registering any pair keeps the table right for lookups of every pair, under the rule that versions do not count for negative types; the first registration that answers wins |
| Versioning.LookupIsOwnIff | src/util/matlab_engine_serializer_versioning.cpp:50-73 | A lookup gives what was registered for its own pair if and only if the type is not negative or the first registration of the type agrees |
| Versioning.Registry.Register | src/util/matlab_engine_serializer_versioning.cpp:22-40 | The registry stays exact for every pair, negative types included, and its history grows by this registration |
| Versioning.NegativeTypeIsFoundUnderAnyVersion | src/util/matlab_engine_serializer_versioning.cpp:22-40 | A registration with a negative type answers for every version |
| Versioning.CacheSurvivesInsert | src/util/matlab_engine_serializer_versioning.cpp:39-40 | A cache that agrees with the registry still does after further registrations |
| Versioning.FncPointers.FindByKey | src/util/matlab_engine_serializer_versioning.cpp:50-73 | The cached lookup returns what the registry holds for this key, or NULL, whatever was looked up before |
| Versioning.FncPointers.Find | src/util/matlab_engine_serializer_versioning.cpp:50-147 | Each of the four lookups returns the function of the first registration that answers for this (version, type), or NULL |
| Versioning.NewFunctionsAreFound | src/util/matlab_engine_serializer_versioning.cpp:22-147 | After four functions have been registered for a pair that no earlier registration answers for, each of the four lookups gives its own |
| Serializers.OwnTagsAreFound | src/util/matlab_engine_serializer_versioning.cpp:22-147 | After four functions have been registered for int32 tags that nothing answered for, each lookup with these tags gives its own, and lookups with other tags give what they gave before unless they share a negative type |
| Wire.Socket.SendData | src/common/asockettcp.cpp:501-548 | On success the network has the whole block once and in order, otherwise a strict prefix, however the sends are cut |
| Wire.Socket.RecvData | src/common/asockettcp.cpp:262-408 | The bytes taken from the network are those written to the buffer, in order, for every result; errors other than E_RECEIVE take nothing; 0 is returned exactly when all single calls moved nothing and the last would have blocked; what a call for no bytes or a negative number returns; a short count needs a time limit or a closed peer; a failed wait ends with its own code and nothing taken, and otherwise the last of the single calls tells the result |
| Frames.FullIsFrame | src/util/matlab_engine_serializer.cpp:82-98 | The send buffer holds a frame of the message with the buffer's own tags, whatever was in it |
| Frames.FrameLayout | include/common_serializer.hpp:32-50 | Where a frame has its five int32 fields, its argument stream, its name and its NUL, byte by byte |
| Frames.FrameReadsBack | src/util/matlab_engine_serializer.cpp:132-165 | Any frame of a message is read as that message: tags, outputs, name, and arrays up to the number of slots |
| Frames.FirstFrameTaken | src/util/matlab_engine_serializer.cpp:119-142 | Whoever takes a header and then as many bytes as it announces has taken exactly the first frame of the stream |
| Frames.StreamRoundTrip | src/util/matlab_engine_serializer.cpp:64-165 | As byte sequences: any frames one behind the other split into the same frames and read back as the same messages, with what follows untouched |
| Serializers.Serializer.Resize | src/common/common_serializer.cpp:59-81 | The buffer only grows, keeps its beginning, and has room for the message if and only if its size fits an int32 |
| Serializers.Serializer.SendScriptNameAndArrays | src/util/matlab_engine_serializer.cpp:64-103 | Without both registered functions nothing is sent; otherwise one frame of the message with the buffer's tags is, whole if the result says so |
| Serializers.Serializer.ReceiveHeader | src/util/matlab_engine_serializer.cpp:119-129 | A header is reported if and only if 64 bytes came, or every receive call moved nothing and the last would have blocked; a header that came replaces the first 64 bytes, and there is room for the announced rest if and only if its end fits an int32; a failed wait gives its own code, a timeout only that, and leaves stream and buffer as they were |
| Serializers.HeaderOutOfNothing | src/util/matlab_engine_serializer.cpp:121-129 | A socket and a network behaviour with which a header is reported and nothing was taken |
| Serializers.Serializer.ReceiveBody | src/util/matlab_engine_serializer.cpp:142-147 | The body is accepted if and only if all announced bytes came, or the announced length is not positive and equals the result of receiving nothing; what came is behind the header, and nothing else has changed |
| Serializers.DeliveredAgain | src/util/matlab_engine_serializer.cpp:106-165 | After a header whose length is the code of a closed connection, the message before is delivered once more and nothing behind the header is taken |
| Serializers.Serializer.ReceiveScriptNameAndArrays2 | src/util/matlab_engine_serializer.cpp:132-165 | When the body is accepted, result and slots are those of the buffer's contents; otherwise the result is negative and the slots are unchanged; matrices in slots are reused |
| Serializers.Serializer.ReceiveHeaderScriptNameAndArrays2 | src/util/matlab_engine_serializer.cpp:106-116 | The bytes taken are header then body, for every result of both calls; the result is the header's even when the body failed, or when no header came |
| Serializers.Serializer.MatlabScriptName | src/util/matlab_engine_serializer.cpp:44-57 | The name read from the buffer is the frame's, whatever lies behind it |
| Serializers.MessageArrives | src/util/matlab_engine_serializer.cpp:106-165 | A buffer that begins with a frame of a message gives its number of arrays and exactly its arrays in the slots, for any earlier contents of the slots |
| ServerCalls.CallMatlabFunction | src/server/matlab_engine_serverbase.cpp:237-346 | One header leads to one reply: the evaluation of the request when its body came, an error otherwise, sent once with the request's own tags, whole or cut, or nothing when the tags have no serializer |
| ServerCalls.Turn | src/server/matlab_engine_serverbase.cpp:214-230 | One turn of the loop, whatever the network does: it takes one whole request and appends its reply, or takes nothing, or ends the loop having taken less than a header, or the request or its reply is cut and at most an error reply or a strict prefix of the right one goes out; it runs on without having served exactly after a timeout |
| ServerCalls.ContactThread | src/server/matlab_engine_serverbase.cpp:207-234 | Up to the first cut, what is sent is one reply per request taken from the stream, in order, each with its request's version and type: behind the requests replied to, less than one header has been taken, and after a cut no more than the request that was cut, with a part of its reply sent; all requests are served if nothing fails |
| Conversations.FrameIsRequest | src/server/matlab_engine_serverbase.cpp:260-293 | What a sender of any message sends is a request the server can serve |
| Conversations.SendAll | src/util/matlab_engine_serializer.cpp:64-103 | Any messages sent one after the other from one buffer go out as their frames in order, whole or cut at the end |
| Conversations.HearAll | src/util/matlab_engine_serializer.cpp:106-165 | Any messages received one after the other into one buffer and the same slots are heard as they were said, in order, up to the first that is cut |
| Conversations.Converse | src/util/matlab_engine_serializer.cpp:64-165 | Round trip of any sequence of messages through both ends: whatever buffers and slots held and however the network cuts, delays or loses the end, the receiver hears the first messages as they were said; all of them if nothing fails |
| Conversations.AnswerOfMessage | src/server/matlab_engine_serverbase.cpp:260-325 | The answer to a request is the evaluation of its script on its first 50 arrays with at most 50 outputs |
| Conversations.RemoteCalls | src/server/matlab_engine_serverbase.cpp:207-346 | From the client through the server and back, the client sending and receiving with one serializer or with two: it hears the results of its own scripts on its own arrays, in the order of its requests, and last perhaps an error; one result per request if nothing fails |
| Proxies.KeepsLockstepIff | src/doocs/matlab_engine_mngr_eqfctproxy.cpp:353-420 | A command keeps at most one request unanswered if and only if it does not lose the body of a reply |
| Proxies.NeverTwoOutstanding | src/doocs/matlab_engine_mngr_eqfctproxy.cpp:353-420 | Over any sequence of commands, timeouts, failed sends and reconnects, with bodies following headers, never more than one request is unanswered on a connection |
| Proxies.LostBodyLetsTwoBeOutstanding | src/doocs/matlab_engine_mngr_eqfctproxy.cpp:391-420 | After one lost body the next successful send makes two unanswered requests |
| Proxies.FailedSendAwaitsNothing | src/doocs/matlab_engine_mngr_eqfctproxy.cpp:379-385 | After a failed send the proxy waits although no reply is owed |
| Proxies.BusyUntilFailure | src/doocs/matlab_engine_mngr_eqfctproxy.cpp:360-363 | From there every further command leaves the proxy as it is until a receive fails |
| Proxies.EqFctProxy.SendCommandToMatlab | src/doocs/matlab_engine_mngr_eqfctproxy.cpp:353-388 | The flags, the retry counter and the requests under way change as the state machine says; the result is 0 exactly when a request went out, -1 when busy, and else the send's own code |
| Proxies.EqFctProxy.ReceiveResultFromMatlab | src/doocs/matlab_engine_mngr_eqfctproxy.cpp:391-420 | The same for receiving, with the result code of each case |
| Proxies.EqFctProxy.TryConnect | src/doocs/matlab_engine_mngr_eqfctproxy.cpp:426-462 | The retry limit, the second attempt and the reset of the counter |
| Proxies.ConnectsIff | src/doocs/matlab_engine_mngr_eqfctproxy.cpp:437-461 | An attempt gives a connection if and only if it succeeds, at once or at the second try, and not more failures than allowed came before; else the failure is counted |
| Proxies.GivesUpAfter | src/doocs/matlab_engine_mngr_eqfctproxy.cpp:437-461 | After failed attempts, each counted, the next attempt is made exactly if they were not more than the limit |
| Proxies.FailureTriesAgain | src/doocs/matlab_engine_mngr_eqfctproxy.cpp:379-413 | In every run a receive or a send that breaks the connection is followed by one new attempt, which gives a connection whenever it succeeds, with the counter at 0 or 1 |
| Proxies.GoesIffOneMore | src/doocs/matlab_engine_mngr_eqfctproxy.cpp:360-387 | A send command leaves a request under way exactly when it was not busy, had or got a connection, and the send went through |
| Locksteps.Fetch | src/doocs/matlab_engine_mngr_eqfctproxy.cpp:391-420 | A whole result received is that of the client's own oldest unanswered request; a timeout is reported exactly when the wait for the header timed out, and leaves the stream and the buffer as they were; the buffer has the connection's tags again |
| Dialogues.NeverTwoUnanswered | src/doocs/matlab_engine_mngr_eqfctproxy.cpp:353-420 | In a log of any commands and server turns in which a request goes only when no result is pending, replies never outnumber requests, nor results replies, and one request at most is without its result |
| Dialogues.LogKeepsLockstep | src/doocs/matlab_engine_mngr_eqfctproxy.cpp:353-420 | The client's commands in such a log are a run of the proxy's state machine, with nothing but replies to read, and every state of it is in lockstep |
| Dialogues.PacedTellsAll | src/doocs/matlab_engine_mngr_eqfctproxy.cpp:353-420 | On steady sockets, with a server turn behind each request, there is always something to work on, and the acts alone tell which requests have gone and how many results have been heard |
| Dialogues.LogIsDetermined | src/doocs/matlab_engine_mngr_eqfctproxy.cpp:353-420 | On steady sockets all that comes of a sequence of acts is determined by the acts |
| Locksteps.Dialogue | src/doocs/matlab_engine_mngr_eqfctproxy.cpp:353-420 | Any sequence of send and receive commands and server turns on one connection and one buffer, with a log of what came of each: the requests sent are those of the send commands that went, in order, never two unanswered; the bytes sent are their frames and at the end at most a part of one more; each result is that of its own request, in order; the client's commands are a run of the proxy's state machine. An act is in vain or ends the dialogue only if its end's socket is not steady or it had nothing to work on; on steady sockets, with a server turn behind each request, all requests go and every result is heard but one that no later command receives; a wait that only times out never ends it |
| Locksteps.CallInTurn | src/client/mex_remote_call.cpp:149-171 | Calls that each wait for their result, on one connection and one buffer: the results are those of the scripts in their order, one per call if nothing fails |
| FifoFasts.FifoFast.AddElement | include/common_fifofast.tos:62-83 | Append, unless the bound is reached; the pool invariant is kept |
| FifoFasts.FifoFast.Extract | include/common_fifofast.tos:86-115 | Take the first element, if any; its node goes to the pool or is deleted once |
| FifoFasts.FifoFast.Destroy | include/common_fifofast.tos:44-58 | Every node ever made has been deleted, and none twice |
| ConnectionLists.ConnectionList.Append | src/server/matlab_engine_serverbase.cpp:176-187 | The walk ends at the true tail and the item is appended to a well-formed list |
| ConnectionLists.ConnectionList.Bypass | src/server/matlab_engine_serverbase.cpp:150-153 | The four cases join the neighbours and move the head, nothing else |
| ConnectionLists.ConnectionList.Unlink | src/server/matlab_engine_serverbase.cpp:145-155 | Unlinking anywhere keeps all other items, their order and both their links |
| ConnectionLists.ConnectionList.Clear | src/server/matlab_engine_serverbase.cpp:199-203 | Deleting the first item until there is none ends with the empty list |
| ConnectionLists.NeighboursWithout | src/server/matlab_engine_serverbase.cpp:150-153 | Who the neighbours of every other item are once one is gone |
| ResourceJobs.ResourceThread.HandleJobs | src/server/matlab_engine_serverbase.cpp:169-196 | Over any queue of NEW, DELETE and FINISH jobs on the heap, deletions of items that the same jobs create included, the list stays well formed and its items are those of the record of the jobs; the queue is empty, and a FINISH anywhere clears the run flag without ending the loop |
| ResourceJobs.ListIsCreatedMinusDeleted | src/server/matlab_engine_serverbase.cpp:145-191 | For any such jobs the record is the created minus the deleted items in the order of creation |
| ResourceJobs.NewItemCanBeDeleted | src/server/matlab_engine_serverbase.cpp:176-191 | An item created and deleted by jobs of one queue leaves the list as it was |
| ResourceJobs.QueuedJobsFit | src/server/matlab_engine_serverbase.cpp:134-142 | In every state of the transition system in which a job is about to be taken, the queued jobs fit the list |
| ResourceJobs.JobBySteps | src/server/matlab_engine_serverbase.cpp:145-191 | The steps the resource thread takes for one job change the list of the transition system as the job changes the record |
| ServerLifecycle.StepKeeps | src/server/matlab_engine_serverbase.cpp:118-234 | Every step of clients, contact threads, resource thread, engine thread and shutdown keeps the invariant that ties each item's history to where the resource thread stands, and each waiting contact thread to its call |
| ServerTheorems.DestroyedExactlyOnce | src/server/matlab_engine_serverbase.cpp:145-204 | In every run each created item is closed, joined, unlinked and freed exactly once by the end, never twice and never out of order, and the list is empty |
| ServerTheorems.ListIsCreatedMinusDeleted | src/server/matlab_engine_serverbase.cpp:176-191 | In every reachable state the list holds the created and not unlinked items in creation order |
| ServerTheorems.FreedItemsAreNotTouched | src/server/matlab_engine_serverbase.cpp:134-234 | No step of any thread, that of the engine within a call included, reads a freed item; a deletion job that is executed names a live item, even if asked for before linking |
| ServerTheorems.NoLostWakeup | src/server/matlab_engine_serverbase.cpp:118-170 | The resource thread never waits for good while jobs are queued |
| ServerTheorems.StopIsHeard | src/server/matlab_engine_serverbase.cpp:88-103 | Once the stop request is posted, a resource thread that waits has a token, even if the queue refused the job |
| ServerTheorems.FlagAfterStop | src/server/matlab_engine_serverbase.cpp:158-175 | After the stop request has cleared the run flag, the flag is up again if and only if the resource thread started since and has not handled the request to finish after that |
| ServerTheorems.FinishIsKeptUnlessRefused | src/server/matlab_engine_serverbase.cpp:88-175 | The request to finish stays in the queue until it is handled, unless the full queue refused it |
| ServerTheorems.StopAtRestIff | src/server/matlab_engine_serverbase.cpp:88-103 | When nothing can happen any more after the stop request, the resource thread has ended if and only if the run flag is down, no contact thread holds a refused call, and none is in a receive that closing does not end |
| ServerTheorems.StopCompletesIff | src/server/matlab_engine_serverbase.cpp:145-204 | Once the flag is down and the stop request has posted, or the loop has been left, the server's own steps are bounded in any order, and at their end the resource thread has ended if and only if no contact thread holds a refused call or only its client can end its receive |
| ServerTheorems.RefusedCallPreventsEnd | src/server/matlab_engine_serverbase.cpp:145-155 | While a contact thread holds a refused call, in every continuation of the run, its call stays refused and the resource thread does not end, on which the stop request waits |
| ServerTheorems.NinthCallIsRefused | src/server/matlab_engine_serverbase.cpp:221-224 | A reachable state of the running server in which the ninth connection's call has been refused |
| ServerService.EveryClientIsServed | src/server/matlab_engine_serverbase.cpp:118-190 | In every run the clients that found room in the queue are, in their order, those of the items made and of the jobs still queued |
| ServerService.RequestIsKeptUnlessRefused | src/server/matlab_engine_serverbase.cpp:134-142 | While jobs are taken, an item whose thread has asked for its deletion is untouched with no such job in the queue if and only if the full queue refused that very request |
| ServerService.LeavesIffFailed | src/server/matlab_engine_serverbase.cpp:207-233 | Before the stop request a contact thread leaves its loop if and only if a receive on its connection has failed |
| ServerService.StoppedUnlessLate | src/server/matlab_engine_serverbase.cpp:145-214 | While an item is destroyed its run flag is up again only if its thread started after the flag was taken down |
| ServerService.NoReceiveAfterClose | src/server/matlab_engine_serverbase.cpp:145-216 | After its socket has been closed, a contact thread that is not in a receive never is again |
| ServerService.CleansUpInOrder | src/server/matlab_engine_serverbase.cpp:198-203 | When the loop has been left, the remaining items are destroyed in the order of their creation, one completely before the next |
| ServerService.RunningServerAtRest | src/server/matlab_engine_serverbase.cpp:118-234 | A running server in which only clients can go on, whatever has happened: each client that came has its item; the item of one whose connection failed is closed, joined, unlinked and freed once, or untouched if the full queue refused the request, and every other thread waits for its client or for a refused call |
| ServerService.RunningServerSettles | src/server/matlab_engine_serverbase.cpp:118-234 | While no client does anything a running server comes to rest within a bounded number of steps, in any order |
| MatHandle.SyncReturnsAfterItsOwnRun | src/util/matlab_engine_mathandleeng.cpp:185-225 | For any mix of callers, a synchronous call has returned only when its own callback ran exactly once; callbacks run in the order of acceptance, none twice |
| MatHandle.RefusedSyncNeverReturns | src/util/matlab_engine_mathandleeng.cpp:185-197 | A synchronous call that the queue refused does not return |
| MatHandle.RefusalHappens | include/common_fifofast.tos:68-80 | A reachable state in which a synchronous call has been refused: eight queued calls are enough |
| MatHandle.QuietMeansServed | src/util/matlab_engine_mathandleeng.cpp:173-225 | When nobody can move, in any state of the engine thread, the calls that ran are exactly the accepted ones no longer queued, each once, and of the synchronous ones exactly these have returned; every asynchronous one has returned |
| MatHandle.AcceptedCallsAreServed | src/util/matlab_engine_mathandleeng.cpp:173-225 | From any state of any run callers and engine come to rest within a bounded number of steps; then, the engine thread alive, every accepted call has run exactly once and every accepted synchronous one has returned; every asynchronous one has returned |
| MatHandle.EndsIffStopped | src/util/matlab_engine_mathandleeng.cpp:54-182 | When nobody can move, the engine thread has ended, and takes no more calls, if and only if it was told to stop |
| ArgumentParsers.ArgumentParser.ParseCommandLine | include/common_argument_parser.tos:26-56 | The in-place loop leaves in the array prefix and among the options met exactly what the list parser gives |
| ArgumentParsers.EveryArgumentHasOneRole | include/common_argument_parser.tos:26-56 | What is left, the option names and the values are the arguments split by role, each argument once and in the original order |
| ArgumentParsers.RoleIs | include/common_argument_parser.tos:39-46 | The roles without recursion: a value is exactly what follows an option that has an argument and is empty or does not begin with a dash; an option is any other known name |
| ArgumentParsers.FoundValues | include/common_argument_parser.tos:35-48 | Every reported option was on the command line and has the argument behind it, if the option has one and that is there and does not begin with a dash, else its default |
| ArgumentParsers.FirstOccurrenceWins | include/common_argument_parser.tos:49 | The value kept for an option is that of its first occurrence |
| ArgumentParsers.ArgumentParser.AddOption | src/common/common_argument_parser.cpp:31-40 | Adding a known option a second time changes nothing |
| ArgumentParsers.ArgumentParser.Lookup | src/common/common_argument_parser.cpp:43-47 | After any command lines, the value an option got the first time it was met, and nothing if and only if it never was |
| ArgumentParsers.LookupAfterParse | include/common_argument_parser.tos:26-56 | From end to end: an option's value is the argument behind the first argument that names it if it took that, else its default, and nothing if and only if no argument names it |

## Left out

- MATLAB engine and mex calls: evaluation is a function of its visible inputs; the evaluation string and its fixed buffer are not modelled, names and expressions are taken to fit.
- The threads' endless loops and the scheduler object are steps of transition systems, not methods; what a step does to an object is a method of that object.
- Saved tasks (`calcAndSaveNoWait`), their hash table and list: they have no finalize action and rest on files that are not in the repository.
- `m_isRunning`, `m_isEngineRunning` and task numbers: displayed only. Writes to neighbouring bit-fields are atomic steps of their own; the read-modify-write race between them is not modelled.
- `listN::Fifo` is an atomic FIFO, and `post(n)` is n posts. A new subtask starts with its error flag cleared; the source leaves it uninitialised until the first run.
- The MAT_UNDOCU serializer and every registered function other than RAW1: the registry may hold the RAW1 functions under any pairs, with single functions missing.
- Raw1Codec.ReadStream: a record header that lies behind the end of the stream, an element size that disagrees with the record's class, or a length for which the test is wrong (`Raw1.StopsRightlyIff`), is a precondition that neither happens: the source does not look, and then copies too much or too little, or bytes that are not the stream's.
- Serializers.Serializer.ReceiveScriptNameAndArrays2: for the same reason requires that what arrives decodes inside its own bytes, and that the bytes that arrive have a place in the buffer; the length itself can be anything.
- Serializers.Serializer.ReceiveHeaderScriptNameAndArrays2: the same, for the message next on the stream.
- ServerCalls.CallMatlabFunction: the same, and that the name ends with a NUL.
- ServerCalls.Turn: after a request or reply that was cut, or a header reported although none came, the source goes on with a stream it no longer understands; the loop is followed up to there.
- ServerCalls.ContactThread: ends where `Turn` does. The input pointers that the source leaves uninitialised start as null.
- Conversations.HearAll: a receive does not run out of time before anything has come on a socket that was reported readable, else a header is reported from nothing; the single calls are covered without that.
- Conversations.RemoteCalls: scripts leave no output out, and their results fit a message; for absent outputs see `Raw1.CountIsRightIffNoneAbsent`.
- Proxies.EqFctProxy.SendCommandToMatlab: the outcome of the network is an argument; in `Lockstep.dfy` it is what the serializer's own methods give.
- Locksteps.Dialogue: one connection, up to where it is given up or a body is cut; reconnecting is in the proxy's state machine.
- Allocation failure, null data pointers and sizes beyond int32 (stated as preconditions); int32 overflow is two's complement wrap-around.
- Buffers and array storage are byte sequences held by objects, so aliasing between a buffer and the arrays encoded into it is not modelled; the encoder's arguments are values.
- Versioning.FncPointers.Find: the erasure of entries when a `Versionizer` is destroyed, at the end of the process, is not modelled.
- ResourceJobs.ResourceThread.HandleJobs: one thread's view of the heap; closing, joining and freeing an item, and what other threads do meanwhile, are in the transition system. A job carries the number of an item, and a table of the items made stands for the pointers.
- Socket creation, `connect`, host names, clocks and sleeping: outcomes of the byte-moving loops are arbitrary instead. That a waiting loop ends is part of the arbitrary choice.
- The SIGPIPE handler and `DeteleCurrentClient`, a second source of deletion requests.
- ServerTheorems.StopCompletesIff: whether closing a socket ends a receive that another thread has begun on it is a parameter of the system; where it does not, such a thread waits for its client. What `MatHandle::Stop` does afterwards is the stop of the engine's own system, and evaluating a script always ends.
- ServerTheorems.StopIsHeard: speaks of a run flag that is down; `ServerTheorems.FlagAfterStop` says when it is up again.
- The accept loop of the server's socket and its thread: a client arriving is a step that is always possible.
- `EqFctMngr`, the named pipe, the GUI listener, thread and mutex shims, `selectMlt*`, the numeric `SetValue`/`GetValue` conversions and MATLAB scripts.
