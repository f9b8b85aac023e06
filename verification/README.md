# A verified model of the RPC framework

This project models the concurrent core of a C++ RPC framework in Dafny and proves
what the framework promises about it:

- **Wire protocol** (`Wire`, `Serializer`, `Framing`, `Checksum`, `Polynomial`): the
  20-byte big-endian header, the length-prefixed request and response bodies, the read
  loop that cuts a byte stream back into messages, and the table-driven CRC-32 of section
  8 of RFC 1952.
- **Client** (`ClientProtocol`, `RpcClient`): many threads in `call`, the `pending_`
  table, the write queue with its single write token, and the read loop.
- **Server connection and manager** (`ConnectionProtocol`, `ManagerProtocol`,
  `Connection`, `Manager`): `send`, the write token, the racing compare-and-swap that
  closes a connection once, and the table of connections.
- **Thread pool** (`PoolProtocol`, `ThreadPool`): the locked queue, the stop flag, three
  counters, sleeping and waking, `drain`, and the destructor.
- **Request processing** (`Dispatch`) and **load balancing** (`Balancer`).
- **The composition** (`EndToEnd`, `Matching`, `Ending`, `Spacing`, `Quiescence`,
  `Progress`, `Termination`, `Feasibility`, `Reuse`): one client, one connection and the pool joined
  by two byte channels.
- **The whole server** (`SharedPool`): any number of clients and connections over one
  pool.

## How the concurrency is modelled

A component that several threads drive is a transition system: a `State`, a datatype of
`Action`s, a predicate `Enabled` and a function `Apply`. One action is one critical
section of a mutex, one atomic operation, one start or completion of an asynchronous
read or write, or one call of a callback. A run is any sequence of enabled actions, so a
lemma about `Reachable` states is a statement about every interleaving. Things that
must be unique are not unique by construction: the number of threads on their way into
`do_write` and the list of outstanding writes are free to grow, and that they never
exceed one is proved. Counters are integers, and that they are never negative is
proved. The state also carries histories (what was pushed, handed to the socket, popped,
settled), in which order and "at most once" are stated.

The classes `RpcClient`, `Connection`, `ConnectionManager` and `ThreadPool` are the
source's objects with their fields. Each method is one such atomic block in imperative
form, with a ghost field `model` holding the protocol state; its contract says that the
block takes exactly its action in the protocol and that the fields still agree with it.
A few methods (`Call`, `RunPopped`, `WorkerLoop`, `OnAccept`, `OnFailure`, `CloseAll`) run
several blocks in a row, undisturbed, and their contracts name the protocol steps they add
up to.

In the composition the pool also serves other connections: in `EndToEnd` they are foreign
tasks that come and go at will, and `SharedPool` shows that a server with any number of
connections is exactly that, seen from any one of them. Handlers may behave differently at
every call: each processing step receives the registered services as a value of its own.
A channel delivers its bytes in order and in pieces of any size; a write completes with
success only when the channel has taken all of it, and it may fail at any moment, after
which the rest never arrives.

## Main results

1. `Matching.EveryAnswerIsItsOwn`: over every interleaving, and in runs of any length, a
   future resolved by the read loop holds the response computed from that same call's
   request. The one condition concerns that call alone: when it registered, the earlier
   owners of its sequence number were through with it. With up to 2^32 calls it always
   holds (`Spacing.FewCallsAnswered`). `Matching.MatchExactly` says exactly, for every
   response, whose future it resolves.
2. `Progress.StuckMeansAnswered` and `Termination.EveryScheduleAnswers`: without
   failures the system never gets stuck early and never runs forever. Every schedule
   ends within a number of steps known at its start, and where it ends every call has
   been answered, except where a handler threw something that is not a `runtime_error`.
   Handlers that hang delay only their own calls as long as they are fewer than the
   workers. `SharedPool.EveryClientsAnswerIsItsOwn`, `ResponsesStayHome`,
   `NobodyHoldsOthersUp` and `ServerScheduleEnds` extend all of this to a server with any
   number of clients, whatever fails on other connections.
3. `Feasibility.AnsweredInAnyOrder`: such runs exist for every batch of calls and every
   set of services, and any calls fewer than the workers can be overtaken by the others.
4. `Dispatch.ProcessAnswers` says what the right answer to a request is, in every case, and
   `Ending.EndOfReadingTellsAll` what the waiting calls learn when the connection is lost.
5. `ClientProtocol.PromiseConservation`: no promise is ever set twice, and every issued
   call is in exactly one place.
6. `PoolProtocol.PoolShutdown`, `ShutdownIsFinite`, `ShutdownProgress`, `NoLostWakeup`,
   `NobodySleepsOnWork`: accepted tasks run exactly once, queued work is never stranded,
   the pool is used in full, and the destructor's join comes to an end.
7. `Checksum.BurstDetected`: CRC-32 detects every error burst of up to 32 bits in a
   message of any length, and the table-driven loop computes it.
   `Polynomial.FrameCheckSequence`: it is the frame check sequence of section 8.1.1.6.2 of
   ITU-T V.42, a remainder of polynomials.
8. `Wire`: the codecs are exact inverses on exactly the values whose sizes fit.

## Where the code does not keep a promise

- `drain()` is documented to wait for all submitted tasks. It does not:
  `PoolProtocol.DrainTooEarly` is a run in which it may return before the only task has
  started, and `DrainMeaning` says exactly what its predicate does guarantee.
  `PendingZero` gives a test that a caller can use instead.
- Error codes are chosen by searching the text of the exception.
  `Dispatch.MisreportedService` shows a registered service reported as missing, and
  `MissingMethodCode` says exactly when the code is right. The text is copied from
  `what()`, so it ends at the first zero byte of a name; codes, messages and size bounds
  all account for that.
- Lengths of names and messages are cut to 16 bits. `Wire.RequestRoundTrip`,
  `ResponseRoundTrip`, `Dispatch.NamesFitExactly` and `ReplySurvivesExactly` give the
  exact bounds.
- A sequence number is reused after 2^32 calls, and registering then overwrites a
  waiting entry: `ClientProtocol.OverwriteHappens` is a run that does it to any given
  call, `OverwrittenExactly` says when a registration does it, and by
  `OverwrittenForever` the future of that call is never resolved.
- For the same reason a response may resolve another call's future:
  `Reuse.MisdeliveryHappens` is a run in which the call that took the number again gets
  the answer to the first call's request. `Matching.MatchExactly` is the exact condition:
  a response to `d` goes to another call if and only if somebody waits under the number
  and a later call has been registered under it.
- Round robin is unfair across the wrap of its 64-bit counter unless the number of nodes
  divides 2^64: `Balancer.RoundRobinWindow`.

The checksum field is no broken promise: the documentation lets zero stand for "not
enabled", `call` and `send_response` send zero, and nothing checks it. The model does the
same, and treats the CRC as a function of its own.

## Model

| member | source | states |
|---|---|---|
| Wire.DecodesBigEndian | src/protocol/rpc_protocol.cpp:18-33 | `read_u16` and `read_u32` read most significant byte first, against an independent definition of big-endian |
| Wire.HeaderLayout | src/protocol/rpc_protocol.cpp:38-49 | each header field lies at its documented offset of the 20 bytes, in big-endian order |
| Wire.HeaderRoundTrip | src/protocol/rpc_protocol.cpp:38-64 | decoding an encoded header, followed by anything, gives the header back |
| Wire.HeaderExact | src/protocol/rpc_protocol.cpp:51-64 | any 20 bytes are the encoding of the header they decode to |
| Wire.RequestParse | src/protocol/rpc_protocol.cpp:100-136 | what the scan makes of bytes laid out field by field as the wire format documents |
| Wire.RequestExact | src/protocol/rpc_protocol.cpp:100-136 | whatever the request decoder accepts starts with the encoding of its result |
| Wire.RequestRoundTrip | src/protocol/rpc_protocol.cpp:72-136 | decode after encode, with any trailing bytes, is the identity if and only if the sizes fit their length fields |
| Wire.RequestPrefixRejected | src/protocol/rpc_protocol.cpp:72-136 | every strict prefix of an encoded request is rejected |
| Wire.RequestBytes | src/protocol/rpc_protocol.cpp:72-98 | each request field lies at its documented offset in big-endian order, lengths cut to their width |
| Wire.RequestCutText | src/protocol/rpc_protocol.cpp:100-136 | a request cut anywhere is refused with the text that names the first missing field |
| Wire.ResponseParse | src/protocol/rpc_protocol.cpp:165-190 | what the scan makes of response bytes laid out field by field |
| Wire.ResponseExact | src/protocol/rpc_protocol.cpp:165-190 | whatever the response decoder accepts starts with the encoding of its result |
| Wire.ResponseRoundTrip | src/protocol/rpc_protocol.cpp:143-190 | the same equivalence for responses, for every signed error code |
| Wire.ResponsePrefixRejected | src/protocol/rpc_protocol.cpp:143-190 | every strict prefix of an encoded response is rejected |
| Wire.ResponseBytes | src/protocol/rpc_protocol.cpp:143-163 | each response field lies at its documented offset in big-endian order, a negative code in two's complement |
| Wire.ResponseRead | src/protocol/rpc_protocol.cpp:165-190 | what the decoder reads at those offsets, the code as a signed 32-bit number |
| Wire.ResponseCutText | src/protocol/rpc_protocol.cpp:165-190 | a response cut anywhere is refused with the text that names the first missing field |
| Serializer.WriteU16 | src/protocol/rpc_protocol.cpp:25-28 | the buffer changes only in the two bytes of the field, which are its encoding |
| Serializer.WriteU32 | src/protocol/rpc_protocol.cpp:11-16 | the buffer changes only in the four bytes of the field, which are its encoding |
| Serializer.Copy | src/protocol/rpc_protocol.cpp:82-83 | `memcpy` into the buffer at a position, nothing else touched |
| Serializer.SerializeHeaderBuf | src/protocol/rpc_protocol.cpp:38-49 | the filled buffer holds exactly the header's wire format |
| Serializer.SerializeRequestBuf | src/protocol/rpc_protocol.cpp:72-98 | filling the buffer through the moving position gives exactly the request's wire format, with the truncated lengths |
| Serializer.SerializeResponseBuf | src/protocol/rpc_protocol.cpp:143-163 | the same for responses |
| Serializer.BuildRequestFrame | src/core/rpc_client.cpp:74-95 | the frame `call` queues is the encoding of its request message |
| Serializer.BuildResponseFrame | src/core/rpc_service.cpp:105-123 | the frame `send_response` sends is the encoding of its response message |
| Framing.ReassembleEncoded | src/network/connection.cpp:25-88 | reassembling the concatenation of valid frames gives exactly those frames, whatever follows |
| Framing.ReassembleSound | src/network/connection.cpp:25-88 | a stream starts with the encodings of the frames it reassembles to |
| Framing.ReassembleMonotone | src/network/connection.cpp:25-88 | later bytes never change what earlier bytes meant |
| Framing.BadMagicEndsStream | src/network/connection.cpp:51-57 | at the first wrong magic word exactly the frames before it have been delivered, and nothing after it ever is |
| Framing.ReadInvStep | src/core/rpc_client.cpp:110-180 | every read completion keeps the invariant that the consumed bytes are the delivered frames and at most one header |
| Framing.StreamReassembly | src/network/connection.cpp:25-88 | in every run, however bytes are split on arrival, only a prefix of the sent frames is delivered, and all of what arrived once the loop is idle |
| Framing.RequestFrameBytes | src/core/rpc_client.cpp:74-95 | the bytes of a request frame, from the magic word to the body |
| Framing.ResponseFrameBytes | src/core/rpc_service.cpp:105-123 | the bytes of a response frame, with the type its code calls for and the serializer and number of the request |
| Checksum.TableStepIsFeed | src/protocol/rpc_protocol.cpp:209-211 | one table step equals feeding the byte's eight bits into the shift register |
| Checksum.TableFoldIsFeed | src/protocol/rpc_protocol.cpp:208-212 | the whole byte-wise loop equals the bit-by-bit definition on every byte string |
| Checksum.BurstDetected | src/protocol/rpc_protocol.cpp:194-213 | messages of equal length that differ only inside a window of 32 bits have different checksums, at every position and length |
| Checksum.FourByteBurstDetected | src/protocol/rpc_protocol.cpp:194-213 | in particular for differences within four consecutive bytes |
| Checksum.Crc32Calculator.FillTable | src/protocol/rpc_protocol.cpp:198-205 | every table entry is eight shift steps of its index |
| Checksum.Crc32Calculator.Checksum | src/protocol/rpc_protocol.cpp:194-213 | the first and every later call return the bit-by-bit CRC-32 |
| Polynomial.FrameCheckSequence | src/protocol/rpc_protocol.cpp:194-213 | the checksum of every message is the frame check sequence of V.42: its complement is the remainder modulo the generator polynomial |
| Polynomial.RemainderUnique | src/protocol/rpc_protocol.cpp:194-213 | there is only one such remainder |
| PoolProtocol.Step | src/thread_pool/thread_pool.cpp:21-57 | every atomic block of enqueuers, workers and destructor keeps the counters, the order, the once-only and the wake-up invariants |
| PoolProtocol.PoolCounters | src/thread_pool/thread_pool.cpp:39-52 | each counter equals what its name says in every reachable state, and none is ever negative |
| PoolProtocol.NoLostWakeup | src/thread_pool/thread_pool.cpp:35-46 | with work queued, a live worker is awake or an enqueuer still owes its notification; after the destructor's `notify_all` nobody sleeps |
| PoolProtocol.NobodySleepsOnWork | src/thread_pool/thread_pool.cpp:35-46 | while any worker sleeps, every queued task has a worker of its own on its way or a notification still to come |
| PoolProtocol.PoolShutdown | src/thread_pool/thread_pool.cpp:21-57 | when all workers have left, each accepted task ran exactly once, popped in submission order, and the counters agree |
| PoolProtocol.DrainMeaning | src/thread_pool/thread_pool.cpp:59-64 | when `drain`'s predicate holds, the unfinished accepted tasks are exactly those between the pop and the increment; all are done if and only if that window is empty |
| PoolProtocol.PendingZero | src/thread_pool/thread_pool.h:38 | when `pending_count()` reads zero every accepted task has finished, save one just pushed and not yet counted |
| PoolProtocol.DrainTooEarly | src/thread_pool/thread_pool.h:33 | a run in which `drain` may return although the submitted task has not run |
| PoolProtocol.ShutdownIsFinite | src/thread_pool/thread_pool.cpp:21-32 | after stop and `notify_all` every schedule ends within a computable number of steps |
| PoolProtocol.ShutdownProgress | src/thread_pool/thread_pool.cpp:21-32 | until every worker has left, some worker can move, so the join is reached |
| PoolProtocol.DestructorStops | src/thread_pool/thread_pool.cpp:21-27 | from any running pool the destructor's flag and notification lead there, with nobody asleep and no work lost |
| ThreadPool.ThreadPool.Enqueue | src/thread_pool/thread_pool.h:75-82 | the critical section takes the push and count actions, or refuses exactly when stopped |
| ThreadPool.ThreadPool.WaitAndPop | src/thread_pool/thread_pool.cpp:38-46 | leaves, sleeps or takes the oldest task, and takes that action in the protocol |
| ThreadPool.ThreadPool.BeginTask | src/thread_pool/thread_pool.cpp:48 | the increment of `active_tasks_` is the protocol's step |
| ThreadPool.ThreadPool.RetireTask | src/thread_pool/thread_pool.cpp:50 | the decrement never goes below zero |
| ThreadPool.ThreadPool.CountCompleted | src/thread_pool/thread_pool.cpp:51 | the increment of `completed_` is the protocol's step |
| ThreadPool.ThreadPool.ReleaseTask | src/thread_pool/thread_pool.cpp:52 | the decrement of `pending_count_` never goes below zero |
| ThreadPool.ThreadPool.RequestStop | src/thread_pool/thread_pool.cpp:22-25 | setting the flag is the protocol's step |
| ThreadPool.ThreadPool.DrainTest | src/thread_pool/thread_pool.cpp:61-63 | a true answer means the unfinished tasks are exactly those in the window |
| ThreadPool.ThreadPool.RunPopped | src/thread_pool/thread_pool.cpp:48-55 | what one uninterrupted pass over a popped task changes, and that it changes nothing else |
| ThreadPool.ThreadPool.WorkerLoop | src/thread_pool/thread_pool.cpp:34-57 | a worker left alone during shutdown empties the queue, counts every task and exits |
| ClientProtocol.SeqOfCollision | src/core/rpc_client.cpp:68 | two calls share a sequence number if and only if a multiple of 2^32 separates them |
| ClientProtocol.Step | src/core/rpc_client.cpp:59-240 | every atomic block of callers, write chain and read loop keeps the client's invariants |
| ClientProtocol.ClientWriteQueue | src/core/rpc_client.cpp:183-229 | at most one write is outstanding, queued frames have a writer, and frames reach the socket at most once and in order, across write errors too |
| ClientProtocol.PromiseConservation | src/core/rpc_client.cpp:68-72 | no promise is set twice; every issued call is in exactly one of five places, and none is overwritten within 2^32 calls |
| ClientProtocol.OverwrittenExactly | src/core/rpc_client.cpp:69-72 | registering overwrites a waiting call if and only if their numbers differ by a multiple of 2^32 |
| ClientProtocol.OverwriteHappens | src/core/rpc_client.cpp:68-72 | for every call there is a run in which its entry is overwritten |
| ClientProtocol.OverwrittenForever | src/core/rpc_client.cpp:140-240 | no continuation of any run ever sets the promise of an overwritten call |
| ClientProtocol.LeftAfterStop | src/core/rpc_client.cpp:231-240 | once the read loop has stopped, every call left in the table was registered after the rejection |
| ClientProtocol.RejectionTellsAll | src/core/rpc_client.cpp:231-240 | every waiting call gets code -10, the reason and no result, nobody else gets anything, and the table is empty |
| ClientProtocol.RejectionMissesNobody | src/core/rpc_client.cpp:231-240 | in every run, whoever waits after the rejection was not yet registered when it happened |
| ClientProtocol.FailedWriteTells | src/core/rpc_client.cpp:213-224 | a failed write resolves the call that waits under its number with code -10 and the reason, and nobody else |
| ClientProtocol.OnlyWriteErrorsAfterStop | src/core/rpc_client.cpp:213-240 | once the read loop has stopped, in every continuation only a failed write resolves a future |
| ClientProtocol.OwnerExactly | src/core/rpc_client.cpp:162-171 | the entry under a call's number is that call if and only if no later call has been registered under it |
| RpcClient.RpcClient.AllocateCall | src/core/rpc_client.cpp:65-68 | the number handed out is the call's own, with wrap-around |
| RpcClient.RpcClient.RegisterCall | src/core/rpc_client.cpp:69-72 | the critical section is the protocol's registration |
| RpcClient.RpcClient.EnqueueWrite | src/core/rpc_client.cpp:183-196 | the frame is queued, and the caller becomes the writer exactly when there was none |
| RpcClient.RpcClient.TakeWrite | src/core/rpc_client.cpp:198-208 | the oldest queued frame, byte for byte that call's frame, or the end of writing |
| RpcClient.RpcClient.OnWriteError | src/core/rpc_client.cpp:213-228 | the waiting call of the failed frame gets code -10 and the reason on a promise that is found unset, and only its entry goes |
| RpcClient.RpcClient.MatchResponse | src/core/rpc_client.cpp:162-171 | the entry taken out is the one whose number the response carries |
| RpcClient.RpcClient.FulfilPromise | src/core/rpc_client.cpp:173-175 | the promise is found unset and only it changes |
| RpcClient.RpcClient.SetWaiting | src/core/rpc_client.cpp:236-238 | the loop sets exactly the waiting promises, each found unset, in any iteration order |
| RpcClient.RpcClient.RejectAllPending | src/core/rpc_client.cpp:231-240 | every waiting call gets code -10 and the reason, nobody else is told anything, and the table is empty |
| RpcClient.RpcClient.Call | src/core/rpc_client.cpp:59-103 | undisturbed, a call ends registered under its own number with its own frame last in the queue |
| ConnectionProtocol.Step | src/network/connection.cpp:90-144 | every atomic block of senders, write chain, reader and closers keeps the connection's invariants |
| ConnectionProtocol.ServerWriteQueue | src/network/connection.cpp:90-133 | at most one write outstanding; `writing_` exactly while a token exists or a write failed; a failure implies closed; frames in push order, at most once |
| ConnectionProtocol.NothingAfterFailure | src/network/connection.cpp:124-130 | after a failed write no run ever hands the socket another frame |
| ConnectionProtocol.ClosedOnce | src/network/connection.cpp:123-144 | closing happens exactly once: a closed connection on which nobody is still at it had one call of `on_close_`, one socket close or one socket found shut |
| ConnectionProtocol.ClosingTally | src/network/connection.cpp:123-144 | the counts in that statement are those of the run: calls of `on_close_`, closes of an open socket, sockets found shut |
| ConnectionProtocol.SendTakesEffect | src/network/connection.cpp:90-102 | a `send` on a closed connection never sends anything; on an open one it may push its frame |
| ConnectionProtocol.OutsideIsFree | src/network/connection.cpp:25-144 | reads and writes may fail, and threads send and close, whenever the source lets them |
| ManagerProtocol.IdOfInjective | src/network/connection_manager.cpp:8 | below 2^64 connections no id is reused |
| ManagerProtocol.Step | src/network/message_cycle.cpp:61-86 | accepting, traffic, callbacks and `close_all` keep the manager's invariants |
| ManagerProtocol.ManagerConsistent | src/network/connection_manager.cpp:7-57 | closed exactly once if closed; keys match ids; a managed closed connection still awaits its removing callback; no open connection is forgotten |
| ManagerProtocol.AcceptedReads | src/network/message_cycle.cpp:69-85 | an accepted connection is in the table under the next number, fresh and reading, and nothing else changes |
| Connection.Connection.BeginSend | src/network/connection.cpp:90-95 | a closed connection drops the message, an open one builds exactly its frame |
| Connection.Connection.PushFrame | src/network/connection.cpp:97-102 | the frame is queued last, and the caller becomes the writer exactly when there was none |
| Connection.Connection.TakeWrite | src/network/connection.cpp:107-117 | the oldest frame, or the end of writing |
| Connection.Connection.LoseConnection | src/network/connection.cpp:30-57 | exactly the first to fail wins and owes the one callback |
| Connection.Connection.Close | src/network/connection.cpp:135-144 | closes the socket exactly when nobody closed before and it is open, and counts it |
| Connection.Connection.ReadLoop | src/network/connection.cpp:25-88 | the loop with its reused buffers delivers exactly the messages the stream means |
| Manager.ConnectionManager.NumberConn | src/network/connection_manager.cpp:8-9 | the atomic number and the connection's id are the protocol's numbering step |
| Manager.ConnectionManager.InsertConn | src/network/connection_manager.cpp:10-11 | the critical section is the protocol's insertion; the table and the protocol's table stay equal |
| Manager.ConnectionManager.OnAccept | src/network/message_cycle.cpp:61-86 | a successful accept numbers, inserts and starts the connection; a failed one changes nothing; both re-arm exactly while running |
| Manager.ConnectionManager.OnClose | src/network/message_cycle.cpp:76-78 | the close callback fires and removes exactly its own connection's entry |
| Manager.ConnectionManager.OnFailure | src/network/connection.cpp:30-49 | a failing read or write: the first to win the swap calls back and leaves the table, a later one changes nothing else |
| Manager.ConnectionManager.TakeSnapshot | src/network/connection_manager.cpp:44-52 | under the lock the table is emptied into a snapshot naming every entry once, in any iteration order |
| Manager.ConnectionManager.CloseNext | src/network/connection_manager.cpp:54-56 | one `close()` of the loop: the protocol's close step, and the socket closed exactly when nobody closed before and it is open |
| Manager.ConnectionManager.CloseAll | src/network/connection_manager.cpp:42-57 | the table is emptied and every connection that was in it is closed by one `close()`, with its own socket's state, as a run of the protocol |
| Dispatch.CTextPrefix | src/core/rpc_service.cpp:91 | what is left of a message is its longest prefix without a zero byte |
| Dispatch.CutTexts | src/service/service_manager.cpp:52-63 | what the two messages of `dispatch` become on the way into the response, for all names |
| Dispatch.MissingServiceCode | src/service/service_manager.cpp:52-56 | an unknown service is always reported as such, by its name up to a zero byte |
| Dispatch.MissingMethodCode | src/core/rpc_service.cpp:90-100 | an unknown method is reported as such if and only if the parts of the names left in the message do not contain the other phrase |
| Dispatch.MisreportedService | src/core/rpc_service.cpp:90-100 | a registered service that is reported as not found |
| Dispatch.ProcessAnswers | src/core/rpc_service.cpp:62-103 | a request whose sizes fit gets the right reply in every case: the handler's result with code 0, its error with the code its text calls for, an unknown service or method with theirs |
| Dispatch.HandlerAnswers | src/core/rpc_service.cpp:83-100 | the same for a registered service and method, spelled out |
| Dispatch.ProcessRefuses | src/core/rpc_service.cpp:65-81 | another frame type gets code -99, a body that does not start with an encoded request code -5 and the decoder's text |
| Dispatch.NamesFitExactly | src/protocol/rpc_protocol.cpp:153 | both error responses of `dispatch` survive their codec if and only if the names, up to a zero byte, leave room in 16 bits |
| Dispatch.ShortNamesFit | src/protocol/rpc_protocol.cpp:153 | in particular when both names and 19 bytes fit together |
| Dispatch.ReplySurvivesExactly | src/core/rpc_service.cpp:62-103 | whatever branch is taken, the response survives its codec if and only if what dispatching gave fits |
| Dispatch.ReplyFrames | src/core/rpc_service.cpp:62-123 | every response fits a frame, whatever the names and the body, given handlers that do |
| Dispatch.ResponseSurvives | src/core/rpc_service.cpp:62-123 | the client decodes exactly the computed response, under the request's number, of type RESPONSE exactly when the code is zero |
| EndToEnd.Step | src/core/rpc_service.cpp:46-123 | every action of client, channels, server, pool and handlers keeps the global invariant |
| EndToEnd.DeliveredIsRequest | src/network/connection.cpp:70-87 | the k-th message the server delivers is the frame of the k-th call the client handed to its socket |
| EndToEnd.JobComputes | src/core/rpc_service.cpp:62-103 | a job's response is what processing its own call's header and bytes gives, and the right reply to that call whenever its sizes fit |
| EndToEnd.JobEscapes | src/core/rpc_service.cpp:83-101 | a job without a response is one whose registered handler threw something that is not a `runtime_error` |
| EndToEnd.ShutdownServesAll | src/core/rpc_service.cpp:46-60 | after the pool's shutdown every submitted request was processed by exactly one task and its response passed to `send`, unless an uncaught exception ended it |
| Matching.MatchExactly | src/core/rpc_client.cpp:162-175 | in every run, a response resolves its own call's future if and only if somebody waits under its number and no later call has been registered under it; another call's if and only if somebody waits and a later one has |
| Matching.NothingOnTheWay | src/core/rpc_client.cpp:140-180 | when every registered owner of a number is through, all responses under that number have been delivered |
| Matching.EveryAnswerIsItsOwn | src/core/rpc_client.cpp:140-180 | an answered call whose number had no owner that was not through when it registered holds the response computed from its own request, over every interleaving of any length |
| Matching.ServedOnce | src/core/rpc_service.cpp:46-60 | in every run, no call's request is served by two jobs |
| Spacing.FewCallsSpaced | src/core/rpc_client.cpp:68 | every run of up to 2^32 calls takes no number again before its previous owner is through |
| Spacing.NothingOverwritten | src/core/rpc_client.cpp:69-72 | a call that waits for its number's previous owner overwrites nobody's entry |
| Spacing.SpacedAnswers | src/core/rpc_client.cpp:140-180 | where every call waits for its number's previous owner, every answer is its own and no call is lost |
| Spacing.FewCallsAnswered | src/core/rpc_client.cpp:140-180 | the same for every run of up to 2^32 calls |
| Ending.ReadersEndTogether | src/core/rpc_client.cpp:110-180 | in every run, the client's reader has ended if and only if its waiting calls were rejected; a server that stopped reading is closed or its pool is stopping |
| Ending.EndOfReadingTellsAll | src/core/rpc_client.cpp:116-160 | the step that ends the reading gives every waiting call code -10 and the reason; every registered call is then settled or was overwritten |
| Ending.FailedWriteTellsOwner | src/core/rpc_client.cpp:213-224 | a failed write tells the call whose frame it was, if it still waits |
| Ending.FailedSendBreaks | src/network/connection.cpp:123-130 | a failed write of the server closes the connection and breaks the channel |
| Ending.FailedSendIsFinal | src/network/connection.cpp:123-130 | after it no byte reaches the client and no frame is handed over, in every continuation |
| Ending.DeadReaderIsFinal | src/core/rpc_service.cpp:46-56 | once the server's reader has ended, also by a refused task, no further request is delivered |
| Ending.OneThingAtATime | src/network/connection.cpp:80-87 | at most one delivered message has not been given to the pool, nothing is read while a response is being handed over, and what has been processed was taken from the queue by a worker |
| Ending.NothingLeftBehind | src/network/connection.cpp:119-132 | a side without an outstanding or failed write has had all its bytes carried, and a computed response is in the hands of the worker that computed it |
| Ending.EnvironmentIsFree | src/network/connection.cpp:25-144 | the composition rules out no failure, no piece of a stream and no refusal |
| Quiescence.AtRestEveryCallAnswered | src/core/rpc_client.cpp:59-180 | at rest without failures every queued call is answered, or its handler hangs or threw an uncaught exception, or its entry was overwritten |
| Progress.StuckIsAtRest | src/thread_pool/thread_pool.cpp:34-57 | a state without failures from which no ordinary step is possible is at rest with every call issued, if fewer handlers than workers hang |
| Progress.StuckMeansAnswered | src/core/rpc_client.cpp:59-180 | wherever a run without failures ends, every call outside the hanging handlers and not overwritten is answered or its exception escaped |
| Progress.NoBadMagic | src/core/rpc_client.cpp:131-134 | a reader of a stream of valid frames never meets a wrong magic word |
| Progress.SoundStep | src/core/rpc_client.cpp:140-180 | while responses fit their fields, ordinary steps lead to no failure |
| Termination.OrdinaryWorks | src/core/rpc_client.cpp:59-229 | every ordinary step of client, channels, connection, pool and handlers lowers one measure |
| Termination.ScheduleEnds | src/core/rpc_client.cpp:59-229 | every schedule of ordinary steps ends within a number of steps known at its start |
| Termination.EveryScheduleAnswers | src/core/rpc_client.cpp:59-180 | from every failure-free state, every schedule ends within a known number of steps; without a failure every call outside the hanging handlers is then answered, and a failure comes by itself only from a response too long for its fields, never where names and handlers keep to their bounds |
| Feasibility.RunToRest | src/core/rpc_service.cpp:46-123 | from every failure-free state some run leads to rest, with any services |
| Feasibility.AnsweredInAnyOrder | src/core/rpc_client.cpp:59-180 | every batch of calls has a run that answers all of them rightly, with any calls fewer than the workers answered after all others |
| Feasibility.SecondBeforeFirst | src/core/rpc_client.cpp:59-180 | two calls whose answers arrive in the opposite order, each with its own response |
| Reuse.MisdeliveryHappens | src/core/rpc_client.cpp:68-72 | for any batch of 2^32 + 1 calls there is a run in which the last one is answered with the response to the first one's request |
| SharedPool.RunSeen | src/core/rpc_service.cpp:46-60 | seen from any of its connections, a run of the whole server is a run of the composition |
| SharedPool.EveryClientsAnswerIsItsOwn | src/core/rpc_client.cpp:140-180 | every client's answers are its own calls' answers, over one pool shared by any number of connections |
| SharedPool.ResponsesStayHome | src/core/rpc_service.cpp:52-55 | every response leaves on the connection its request came from, under that call's number |
| SharedPool.SharedShutdownServesAll | src/thread_pool/thread_pool.cpp:21-32 | after the shared pool's shutdown every connection's submitted requests are served |
| SharedPool.NobodyHoldsOthersUp | src/thread_pool/thread_pool.cpp:34-57 | slow handlers, broken channels and closed connections of other clients leave no call of a healthy client unanswered, if fewer handlers than workers hang |
| SharedPool.ServerScheduleEnds | src/thread_pool/thread_pool.cpp:34-57 | every schedule of the whole server ends within a number of steps known at its start |
| Balancer.RoundRobinWindow | src/conn_balancer/conn_balancer.cpp:13-18 | n consecutive selections choose every position exactly once if and only if the counter does not wrap inside or n divides 2^64 |
| Balancer.RoundRobinShares | src/conn_balancer/conn_balancer.cpp:72-79 | k selections after `set_nodes` hit each position floor(k/n) times, and the first k mod n once more |
| Balancer.SelectWeighted | src/conn_balancer/conn_balancer.cpp:37-59 | the first position whose running sum exceeds the draw; the fallback return is never reached |
| Balancer.WeightedProportional | src/conn_balancer/conn_balancer.cpp:53-58 | exactly weight-many draws choose each node if and only if no weight is negative |
| Balancer.FactoryNames | src/conn_balancer/conn_balancer.cpp:123-130 | the factory undoes the strategy's name and falls back to a fresh round robin |
| Balancer.LoadBalancer.SetNodes | src/conn_balancer/conn_balancer.cpp:72-113 | the kind of strategy stays and a round robin starts over |
| Balancer.LoadBalancer.Select | src/conn_balancer/conn_balancer.cpp:77-79 | delegates to the strategy; a round robin advances by one with wrap-around |

## Left out

- Time: `timeout_ms` is carried but never enforced by the source; no statement about how long a call takes, and none about calls made after the read loop has stopped.
- Disconnecting: `disconnect` stops the IO thread and leaves waiting calls unresolved; the model simply takes no further step.
- Sockets: resolving, connecting, accepting with errors, signals and the event loop itself appear only as reads and writes that complete with success or error.
- Memory model: steps are sequentially consistent; the unsynchronised initialisation of the CRC table and the thread safety of sockets are not modelled.
- Counter width: the pool's counters are unbounded integers, since a wrap would need 2^64 tasks; sequence numbers, connection ids and the round-robin counter do wrap as in the source.
- Serializer.WriteU32: written with division and remainder instead of shifts and masks, which agree on unsigned words.
- Balancer.SelectWeighted: requires that no partial sum of weights overflows `int`, because the source is undefined there, and takes the random draw as an argument in range.
- `find`, `add_node`, `remove_node` and `set_strategy` of the load balancer: plain list updates and lookups.
- The random strategy: its choice is the draw itself, so there is nothing to prove beyond the range.
- Matching.EveryAnswerIsItsOwn: assumes request and response bodies below 2^32 bytes, since `body_size` is cut to 32 bits and larger ones desynchronise the byte stream; names and messages may exceed their 16-bit fields.
- Progress.StuckMeansAnswered: a handler that never returns, and a channel, worker or thread that is never scheduled again, are covered only by saying which calls are affected; fairness of the scheduler is not modelled.
- SharedPool.NobodyHoldsOthersUp: the number of connections is fixed in a run, a later one being one that has not moved yet; the table of connections is proved by itself in `ManagerProtocol` and not part of the composed state.
- The server without a thread pool: `on_message` then processes in the IO thread, where an exception that is not a `runtime_error` leaves the read loop and the IO thread instead of ending in a discarded future; that mode is not modelled.
- Registering and unregistering services: plain map updates; the composition lets the registered services be a different value at every processing step instead.
- `drain` termination: its condition variable is notified without the lock, so a wake-up can be missed; nothing is claimed about when it returns.
- Compression, encryption, the protobuf and JSON serializers, configuration, logging and the demo programs: wrappers and input/output off the RPC path.
- The ZooKeeper client, the registry and `NodeManager`: a second client whose pending table repeats the one proved here.
