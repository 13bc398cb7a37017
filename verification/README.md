# Garçon: a verified model

Garçon is a small HTTP/1.1 server in C++. An acceptor admits connections under a per-address limit and
pushes them into a bounded queue; a fixed pool of workers pops them and serves each with a keep-alive
loop; modules loaded into the server limit rates, check tokens and route requests. This project models
the parts of it that carry the difficult arguments, and proves them with Dafny 4.11:

    dafny verify dfyconfig.toml

## What is modelled

**Admission and dispatch** (`WorkQueue`, `IpLimiter`, `QueueProtocol`, `Dispatch`, `DispatchRuns`, `Server`).
The queue and the limiter are classes, one method per critical section. `QueueProtocol` is the queue as
a transition system: any number of blocking producers and popping consumers interleave at lock
granularity, wake-ups may be spurious, and a notification that follows an unlock is a step of its own.
`Dispatch` adds the acceptor, the limiter and the workers with their release guards, and is shown to
refine the queue protocol. `DispatchRuns` holds the theorems about whole runs. `Server` has the code's
own loops over the two classes and proves that each of them is a run of `Dispatch`.

**The rate limiter** (`RateLimit`, `RateLimitExact`, `RateLimiter`, `RateLimitReplies`,
`RateLimitConfig`). Token buckets over exact reals. A request reads the clock before it takes the lock,
so its timestamp can reach the bucket late; no theorem assumes any order of timestamps. `RateLimitExact`
says what the bucket decides without mentioning a bucket.

**The wire** (`Messages`, `Buffer`, `Framing`, `Request`, `CharacterClasses`, `Response`,
`ResponseReading`, `Connection`). A reader that gets
its bytes in arbitrary chunks, the index-based request parser, the response serializer, and the
keep-alive state machine of one connection (sections 2.2, 3, 5 and 9.3 of RFC 9112; sections 5.6.2 and
7.6.1 of RFC 9110). A connection's trace is the list of its access-log records, sent responses and
reported errors.

**Decoders and matchers** (`Base64Url`, `JsonClaims`, `Router`, `RouterConfig`, with `RuleText`,
`Fields`, `Text` and `Decimal` below them). The base64url decoder with its 32-bit accumulator
(section 5 of RFC 4648), the claim extractors that search a flat JSON text without parsing it
(section 7 of RFC 8259 for the escapes), the path matcher and the route file reader.

Code that changes state step by step is a class or a method with a loop, proved equal to a
specification function; the properties are lemmas about those functions. A specification is always
related to something that is not the code: a printer, an encoder, a declarative meaning, or a count of
where things are.

## What the proofs found

- `Retry-After` alone is not always enough: waiting exactly that long can be short by less than a
  millisecond, because the code rounds up with 0.999. `RateLimit.HintAloneSuffices` says exactly when
  the hint suffices, `RateLimit.HintAloneMayFail` gives a run in which it does not, and with one more
  millisecond it always does (`RateLimit.RetryAfterSound`).
- A header block that ends at or before the limit is read in every chunking, one that ends more than
  2047 bytes after it in none. Between the two the chunking decides: every such block is read in one
  chunking and refused in another (`Framing.ChunkingDecides`), and
  `Framing.ReadExactlyWhenHeldBelowLimit` says which.
- A response reads back exactly if its reason holds no CRLF; `serialize` does not check this.
- A client that sends bytes early loses those that were read with the end of its header block: the
  buffer is new for each request. In every chunking and over every network it has the session it would
  have had without them (`Connection.EarlyBytesAreDropped`, `Connection.HasteChangesNothing`).
- In the router, a pattern with a parameter followed by a literal other than `/` matches no path at
  all, though values for the parameter may exist (`Router.FindsEveryFitExactlyIfSeparated`).
- The router sends every status outside a list of fourteen with the reason "OK", also those that have a
  standard phrase (`RouterConfig.ReasonIsStandardExactly`).
- Request targets may hold ten characters that RFC 3986 does not allow
  (`CharacterClasses.TargetsBeyondStandard`).
- Only the first `Connection` field is consulted, although section 5.3 of RFC 9110 makes all of them
  one list; and a version 1.0 request that gives both `keep-alive` and `close` is kept, although
  section 9.3 of RFC 9112 has `close` win. `HttpRequest.KeepAliveFollowsStandardExactly` says for every
  request when the code decides as the standard does; `HttpRequest.CloseInSecondFieldIsMissed` and
  `HttpRequest.CloseBesideKeepAliveIsMissed` are requests to close that are not seen.

## Model

| member | source | states |
|---|---|---|
| WorkQueues.WorkQueue.Create | src/app/work_queue.cpp:15-21 | construction fails exactly for capacity zero |
| WorkQueues.WorkQueue.TryPush | src/app/work_queue.cpp:42-52 | appends the socket if and only if the queue is open and has room, answers closed if and only if it is closed, and otherwise full, changing nothing; the bound is kept |
| WorkQueues.WorkQueue.PushWhileLocked | src/app/work_queue.cpp:23-40 | between two waits a blocking push appends exactly if the queue is open with room, waits exactly if it is open, full and not stopped, and is refused otherwise |
| WorkQueues.WorkQueue.PopWhileLocked | src/app/work_queue.cpp:54-72 | between two waits a pop takes the front socket exactly if there is one, also from a closed queue, waits exactly if there is none and nothing is closed or stopped, and ends otherwise |
| WorkQueues.WorkQueue.Close | src/app/work_queue.cpp:74-80 | the queue is closed and its sockets stay |
| QueueProtocol.StepMovesWakeups | src/app/work_queue.cpp:49-50 | each step changes the number of wake-ups under way by exactly what its notification, wake-up or push accounts for |
| QueueProtocol.StepKeepsInv | src/app/work_queue.cpp:23-80 | every step of every thread keeps the bound, and keeps as many wake-ups under way as there are sockets for sleepers and free slots for blocked pushers |
| QueueProtocol.RunKeepsInv | src/app/work_queue.cpp:23-80 | so does every interleaving of any length |
| QueueProtocol.NoLostWakeup | src/app/work_queue.cpp:54-71 | in every reachable state, a sleeping consumer implies queue length <= notifications due + woken consumers; symmetrically for blocked pushers and free slots; length never exceeds capacity |
| QueueProtocol.SomeWakeupPending | src/app/work_queue.cpp:61-62 | beside a sleeper and a non-empty queue there is always a pop or a notification that can happen now |
| QueueProtocol.SomeRoomWakeupPending | src/app/work_queue.cpp:30-31 | beside a blocked pusher and a free slot there is always a push or a notification that can happen now |
| QueueProtocol.WorkConserving | src/app/work_queue.cpp:54-72 | when the queue's code has nothing left to do, sleepers face an empty queue and blocked pushers a full one |
| QueueProtocol.Fifo | src/app/work_queue.cpp:36-68 | over every run, what was queued and then pushed is what was popped and is still queued, in the same order |
| QueueProtocol.ClosedAcceptsNothing | src/app/work_queue.cpp:33-46 | once closed, a queue stays closed and no push of any kind succeeds |
| IpLimiter.IpConnectionLimiter.Create | src/app/ip_connection_limiter.cpp:11-16 | construction fails exactly for limit zero |
| IpLimiter.IpConnectionLimiter.TryAcquire | src/app/ip_connection_limiter.cpp:18-30 | the table and the answer are those of `Acquire`, whose meaning is AcquireCounts |
| IpLimiter.IpConnectionLimiter.ReleaseOne | src/app/ip_connection_limiter.cpp:32-48 | the table becomes that of `Release`, whose meaning is ReleaseCounts |
| IpLimiter.AcquireCounts | src/app/ip_connection_limiter.cpp:18-30 | an address is admitted exactly if it is empty or below the limit; its count grows by one then, and no other count changes; every stored count stays between 1 and the limit |
| IpLimiter.ReleaseCounts | src/app/ip_connection_limiter.cpp:32-48 | a release lowers exactly that address's count by one, and a count that falls to zero is no longer stored |
| IpLimiter.ReleaseUndoesAcquire | src/app/ip_connection_limiter.cpp:18-48 | a release after a successful acquire restores the table itself |
| Dispatch.QueueRefined | src/server.cpp:107-123 | the queue inside a run of the server makes a run of the queue protocol, so every theorem of QueueProtocol holds in the server |
| Dispatch.StepMovesDispatched | src/server.cpp:111-116 | no step loses or duplicates a socket on its way from the push to the guard's release, whatever is counted |
| Dispatch.StepMovesCounts | src/server.cpp:157-167 | each step moves the limiter's table by exactly the admissions it grants or gives back |
| Dispatch.StepKeepsInv | src/server.cpp:148-171 | every step of the acceptor and the workers keeps the agreement of limiter, queue, workers and acceptor |
| Dispatch.RunKeepsInv | src/server.cpp:148-171 | so does every interleaving |
| Dispatch.LimiterAgreesWithSockets | src/server.cpp:32-49 | in every reachable state, an address's count is the number of its sockets queued, in workers up to the guard's release, or admitted and not yet pushed or given back by the acceptor; every stored count is from 1 to the limit, also when handlers throw |
| DispatchRuns.Conservation | src/server.cpp:148-171 | over every run, accepted sockets are exactly those still present and those settled by address rejection, full queue, closed queue or service, whatever weight they are counted with |
| DispatchRuns.EachSocketInOnePlace | src/server.cpp:148-171 | each accepted socket is in exactly one place or has exactly one fate; a socket never accepted is nowhere |
| DispatchRuns.QueueIsFifo | src/app/work_queue.cpp:42-72 | in the server, popped sockets followed by queued ones are the pushed ones in order, within the capacity |
| DispatchRuns.AcceptedIsPushedOrRefused | src/server.cpp:148-171 | over a run that begins and ends with the acceptor's hands empty, each accepted socket was pushed, or refused for its address, for want of room, or because the queue was closed |
| DispatchRuns.PushSucceedsExactlyIfThereIsRoom | src/app/work_queue.cpp:45-51 | the acceptor's push succeeds if and only if the queue is open and has room |
| DispatchRuns.SleeperWillBeWoken | src/app/worker_pool.cpp:61-66 | a worker never sleeps beside queued work without a pop or a notification of the acceptor ready to happen |
| DispatchRuns.ClosedStep | src/app/worker_pool.cpp:37-43 | after the stop request every worker step lowers a measure by one and no other step changes it |
| DispatchRuns.ClosedRunIsBounded | src/app/worker_pool.cpp:61-78 | so every run from there, however scheduled, takes at most that many worker steps |
| DispatchRuns.WorkerCanMove | src/app/worker_pool.cpp:61-78 | a closed server with a worker that has not exited is never stuck |
| DispatchRuns.PushedIsServedOrPresent | src/app/worker_pool.cpp:63-69 | what was pushed is exactly what has been served and what is still queued or in a worker |
| DispatchRuns.ShutdownRefusesPushes | src/app/worker_pool.cpp:37-43 | after the stop request no push succeeds |
| DispatchRuns.RefusedIsGivenBack | src/server.cpp:165-167 | after the stop request every socket the acceptor tries to push is refused as closed and its admission given back, in order, at most the last one still to come |
| DispatchRuns.ShutdownEnds | src/app/worker_pool.cpp:32-43 | a run of a closed server whose workers cannot move any more has ended with every worker exited |
| DispatchRuns.ShutdownCompletes | src/app/worker_pool.cpp:32-43 | and such an end is reached in exactly as many steps as the measure says |
| DispatchRuns.ShutdownDrains | src/app/worker_pool.cpp:32-78 | once every worker has exited, the queue is closed and empty, every pushed socket was served exactly once, and with no admission in the acceptor's hands the limiter's table is empty |
| DispatchRuns.NoAdmissionsLeft | src/server.cpp:41-44 | the same of the limiter's table, for every state in which the invariant holds |
| Server.Server.AcquireStep | src/server.cpp:157-158 | the limiter's section is one step of Dispatch, whatever the other threads are doing |
| Server.Server.TryPushStep | src/server.cpp:165 | so is the push's, which queues exactly if the queue is open and has room |
| Server.Server.UndoStep | src/server.cpp:166-167 | so is the release after a failed push |
| Server.Server.PopStep | src/app/work_queue.cpp:54-68 | so is each section of a pop, also one that ends in a wait |
| Server.Server.ReleaseStep | src/server.cpp:41-44 | so is the guard's release |
| Server.Server.CloseStep | src/app/worker_pool.cpp:39 | so is the closing of the queue |
| Server.Server.SilentStep | src/app/work_queue.cpp:49-50 | notifications and a thread's own steps leave limiter and queue as they are |
| Server.Server.Admit | src/server.cpp:157-169 | one accepted connection, from any state the invariant allows: it is accepted under the next number, admitted exactly if the limiter lets it, queued at the back exactly if the queue does, given back otherwise; the calls make these steps of Dispatch, the acceptor's only, in this order |
| Server.Server.PushOrUndo | src/server.cpp:165-169 | a socket that is not queued gives its admission back, and one that is queued keeps it |
| Server.Server.TakeResult | src/server.cpp:151-170 | one turn accepts the connection it is given, and only that, or nothing on an error; a fatal one leaves the loop |
| Server.Server.AcceptLoop | src/server.cpp:148-171 | the accept loop is a run of the acceptor's steps of Dispatch from any such state, and the connections accepted in it are exactly those that arrive before a fatal error, in order; it ends exactly at a fatal error |
| Server.Server.ServeClient | src/server.cpp:111-116 | the worker callback of any worker is a run of Dispatch that ends with the admission given back and the worker about to pop, whether the connection handler throws or not |
| Server.Server.ServeNext | src/app/worker_pool.cpp:63-77 | one turn of any worker takes and serves the front socket, exits, or falls asleep, as the queue and the stop request say |
| Server.Server.RunWorker | src/app/worker_pool.cpp:61-78 | any worker's loop serves all that is queued, in order, reports exactly the callbacks that threw, and then exits if it was stopped or the queue closed, or else falls asleep |
| Server.RunsCompose | src/server.cpp:148-171 | runs of Dispatch compose, which is how the loops become runs |
| RateLimit.RefillComposes | lib/rate_limit/rate_limit_module.cpp:304-309 | refilling twice is refilling once, cap included, and a later refill never holds less |
| RateLimit.LevelWithinBurst | lib/rate_limit/rate_limit_module.cpp:297-316 | after any run the level is between 0 and the burst, and the refill point is the largest timestamp seen |
| RateLimit.RateBound | lib/rate_limit/rate_limit_module.cpp:284-316 | admissions plus what is left never exceed the starting level plus what the refill point's growth earned |
| RateLimit.SegmentRateBound | lib/rate_limit/rate_limit_module.cpp:284-316 | in any segment of any run, admitted requests <= burst + limit * growth of the refill point / window, timestamps in any order |
| RateLimit.BudgetFollowsRule | lib/rate_limit/rate_limit_module.cpp:292-293 | every valid rule's rate and cap meet the assumptions of the bounds |
| RateLimit.RejectionIsUnobservable | lib/rate_limit/rate_limit_module.cpp:304-328 | deleting a rejected request from any run changes no other decision |
| RateLimit.AdmittedAloneAreAdmitted | lib/rate_limit/rate_limit_module.cpp:304-316 | the admitted requests of a run, alone, are all admitted |
| RateLimit.ExactWaitIsExact | lib/rate_limit/rate_limit_module.cpp:318-322 | with no other consumer the next request is admitted if and only if it waits needed / rate seconds |
| RateLimit.RetryAfterIsRounded | lib/rate_limit/rate_limit_module.cpp:318-326 | the hint is that wait plus 0.999 truncated, at least 1; the window clamp never cuts it |
| RateLimit.RetryAfterTight | lib/rate_limit/rate_limit_module.cpp:318-326 | the hint is less than the exact wait plus one second, and from 1 to the window |
| RateLimit.RetryAfterSound | lib/rate_limit/rate_limit_module.cpp:284-328 | waiting the hint and a millisecond from the refill point always leads to admission |
| RateLimit.RetryAfterSoundDespitePolling | lib/rate_limit/rate_limit_module.cpp:284-328 | also if any number of rejected requests came in between |
| RateLimit.HintAloneSuffices | lib/rate_limit/rate_limit_module.cpp:322-325 | waiting the hint alone leads to admission if and only if the exact wait is below one second, whole, or at least a millisecond past a whole second |
| RateLimit.HintAloneMayFail | lib/rate_limit/rate_limit_module.cpp:322-325 | a run of three requests in which waiting the hint alone is rejected |
| RateLimitExact.LevelIsLeastCharge | lib/rate_limit/rate_limit_module.cpp:304-316 | the level a request finds is the least that any earlier full bucket would have come to |
| RateLimitExact.AdmittedExactly | lib/rate_limit/rate_limit_module.cpp:284-316 | a request is admitted if and only if in every stretch of the run that ends with it the admissions with it are within the cap and the stretch's earnings: the bucket's meaning without a bucket |
| RateLimitExact.AdmittedExactlyByRule | lib/rate_limit/rate_limit_module.cpp:284-316 | for a rule: within burst + limit * growth / window for every stretch, so every rejection is forced by some stretch; timestamps in any order |
| RateLimitExact.AtOneInstant | lib/rate_limit/rate_limit_module.cpp:311-316 | of requests that bring no refill exactly as many are admitted as there are whole tokens |
| RateLimitExact.BurstAtOnce | lib/rate_limit/rate_limit_module.cpp:298-302 | a new subject's n requests at one instant are admitted up to the burst, and no more |
| RateLimiter.StateKeyInjective | lib/rate_limit/rate_limit_module.cpp:278-282 | two rule and subject pairs never share a bucket, whatever the subjects contain |
| RateLimiter.BucketsAreIsolated | lib/rate_limit/rate_limit_module.cpp:295-302 | in any interleaved run over the shared table, the decisions for a pair and its bucket are those of the pair's own subsequence on its own bucket |
| RateLimiter.OtherPairsDoNotMatter | lib/rate_limit/rate_limit_module.cpp:295-302 | two runs with the same requests for a pair decide them alike |
| RateLimiter.PairRateBound | lib/rate_limit/rate_limit_module.cpp:284-316 | the rate bound for each pair in runs over the shared table |
| RateLimiter.RateLimitModule.CheckAndConsume | lib/rate_limit/rate_limit_module.cpp:284-329 | one call is one step on the table: verdict and buckets are those of the specification |
| RateLimiter.RateLimitModule.ServeOthers | lib/rate_limit/rate_limit_module.cpp:358-359 | calls of other threads between two locks change the table by their own steps, in order |
| RateLimiter.RateLimitModule.Handle | lib/rate_limit/rate_limit_module.cpp:331-379 | the first matching rule and no other is applied, once; the answer carries its limit, and the hint or the tokens that remain after the calls that came between the two locks; without a match nothing changes |
| RateLimitReplies.RuleAppliesAsWritten | lib/rate_limit/rate_limit_module.cpp:79-96 | a rule covers a request by its pattern as written in the file, where a final star stands for anything |
| RateLimitReplies.SameBucketExactly | lib/rate_limit/rate_limit_module.cpp:185-196 | two requests share a bucket if and only if they fall under the same rule and have the same value of its header, all without one counting as one |
| RateLimitReplies.LimitedClientReads | lib/rate_limit/rate_limit_module.cpp:198-214 | the client of a limited request reads a 429 and finds the limit, the window and the wait in it |
| RateLimitReplies.RemainingIsTrue | lib/rate_limit/rate_limit_module.cpp:363-371 | the remaining count that an admitted client is told is the number of further requests admitted at once |
| RateLimitConfig.ParsePositiveInt | lib/rate_limit/rate_limit_module.cpp:98-112 | exactly the non-empty digit strings of positive value are numbers, and denote that value; no value on the way is greater |
| RateLimitConfig.WindowsAccepted | lib/rate_limit/rate_limit_module.cpp:114-142 | a window is accepted if and only if it is a positive number of seconds, minutes or hours up to 10^9 seconds |
| RateLimitConfig.KeysAccepted | lib/rate_limit/rate_limit_module.cpp:144-162 | a key is accepted if and only if it is global, a marked header name, or a bare one without a colon |
| RateLimitConfig.RuleMeansItsFields | lib/rate_limit/rate_limit_module.cpp:233-262 | fields are taken for a rule if and only if they write that rule down, field by field; the burst is the limit unless a greater one is given |
| RateLimitConfig.ConfiguredExactly | lib/rate_limit/rate_limit_module.cpp:223-273 | a text is accepted if and only if it has a rule line and each of its rule lines writes a rule down; each gives one rule |
| RateLimitConfig.PrintedRulesReadBack | lib/rate_limit/rate_limit_module.cpp:223-276 | printing any valid rules among blank, comment and foreign lines and reading the text returns them in order |
| RateLimitConfig.ReadPrintRead | lib/rate_limit/rate_limit_module.cpp:223-276 | every rule read can be printed, and printing what was read and reading it again changes nothing |
| RateLimitConfig.ConfiguredRulesAreValid | lib/rate_limit/rate_limit_module.cpp:251-273 | every accepted configuration has rules, all with 1 <= limit <= burst and a window from 1 to 10^9 seconds |
| RateLimitConfig.ReadConfiguration | lib/rate_limit/rate_limit_module.cpp:218-276 | the constructor reads the rules of all its rule lines in order, or fails with the first error |
| RuleText.ReadLines | lib/router/router_module.cpp:154-175 | the loop over lines, shared by both readers, gathers what the lines contribute in order and stops at the first error |
| RuleText.FirstErrorStands | lib/router/router_module.cpp:166-167 | what follows a line in error changes nothing |
| RuleText.GatheredHave | lib/router/router_module.cpp:154-175 | what holds of everything a line contributes holds of everything read |
| RuleText.ClassifiedAsWritten | lib/router/router_module.cpp:106-114 | a pattern is classified as what it was written for, and was written as it is classified |
| RuleText.TextAcceptedExactly | lib/router/router_module.cpp:154-167 | a text is accepted if and only if each of its entry lines is, and each then contributes one entry: none is ignored |
| RuleText.LineReadsBack | lib/router/router_module.cpp:116-167 | a printed entry between blanks reads back as that entry; any other line contributes nothing |
| RuleText.PrintedTextReadsBack | lib/router/router_module.cpp:154-175 | printed entries among any skipped lines are read back in order |
| Fields.SplitFieldsByIndex | lib/router/router_module.cpp:42-60 | the splitting loop returns the trimmed pieces between delimiters |
| Fields.PiecesOfJoin | lib/router/router_module.cpp:42-60 | splitting undoes joining |
| Fields.JoinOfPieces | lib/router/router_module.cpp:42-60 | joining undoes splitting, and no piece holds a delimiter |
| Text.TrimByIndex | lib/router/router_module.cpp:25-40 | the two-index loop returns the trimmed text |
| Text.TrimSplits | lib/router/router_module.cpp:25-40 | trimming removes blanks at both ends and nothing else |
| Text.TrimPadded | lib/router/router_module.cpp:25-40 | trimming undoes padding |
| Messages.FindHeader | src/http/response.h:32-41 | the first field whose name matches without regard to ASCII case, if there is one |
| Buffers.Buffer.WriteSpan | src/http/buffer.cpp:15-22 | at least the asked free space, storage no larger than needed, committed bytes unchanged |
| Buffers.Buffer.Commit | src/http/buffer.cpp:24-29 | appends the span's first n bytes, or all of it if n is larger |
| Framing.FindHeaderEnd | src/http/framing.cpp:15-21 | just after an empty line |
| Framing.ReceiveInto | src/http/framing.cpp:37-46 | one read appends exactly the bytes it delivered and nothing on any other outcome; storage stays within one span of what is held |
| Framing.ReadHeaderBlock | src/http/framing.cpp:23-48 | the loop over buffer and stream returns what the specification reads, consumes the same reads and leaves the same bytes |
| Framing.ChunkingDoesNotMatter | src/http/framing.cpp:28-47 | a header that ends within the limit is returned exactly, in every chunking that delivers it |
| Framing.TooLongNeverSucceeds | src/http/framing.cpp:34-35 | a header that ends more than 2047 bytes after the limit is read in no chunking |
| Framing.ReadExactlyWhenHeldBelowLimit | src/http/framing.cpp:34-46 | in general a delivered header is read if and only if fewer bytes than the limit were held before the read that completed it |
| Framing.ChunkingDecides | src/http/framing.cpp:34-46 | every header that ends 1 to 2047 bytes after the limit is read in one chunking of its bytes and refused in another |
| Framing.LastReadDecides | src/http/framing.cpp:28-32 | the read that completes a header is the last one made for it, and what else it brought is neither returned nor left to be read |
| Framing.BufferIsBounded | src/http/framing.cpp:34-46 | the buffer never holds more than the limit plus 2047 bytes |
| Framing.BlockIsPrefix | src/http/framing.cpp:28-47 | the buffer holds a prefix of what was delivered, and a returned block ends at its first empty line |
| Framing.ReadsAreBounded | src/http/framing.cpp:28-47 | the loop makes at most one read for each byte below the limit |
| HttpRequest.ParseHeadersByIndex | src/http/request.cpp:270-287 | the header loop reads what the specification reads from the same place |
| HttpRequest.ParseByIndex | src/http/request.cpp:235-290 | request::parse returns the specification's request or error, with the same precedence of errors |
| HttpRequest.FieldLineParsesExactly | src/http/request.cpp:173-191 | a line is taken for a field if and only if it is the field's name, a colon, and its value between any blanks or none |
| HttpRequest.FieldsReadBack | src/http/request.cpp:270-287 | lines that mean fields, anywhere in a block, are read as those fields in order, up to the empty line after them |
| HttpRequest.RequestLineParsesExactly | src/http/request.cpp:241-268 | a line is taken for a request line if and only if it is the printed line of that request |
| HttpRequest.ParsesExactly | src/http/request.cpp:235-290 | request::parse returns a request if and only if the block is its request line, a line for each field with any blanks around the value, an empty line, and anything after it |
| HttpRequest.ParsePrint | src/http/request.cpp:235-290 | parsing the printed form of any valid request yields that request |
| HttpRequest.ParsedIsValid | src/http/request.cpp:52-151 | every parsed request is valid: token method and names, origin-form target, version 1.0 or 1.1, trimmed values without controls |
| HttpRequest.ParsePrintParse | src/http/request.cpp:235-290 | printing and parsing again changes nothing |
| HttpRequest.FramedHeaders | src/http/request.cpp:270-287 | on a framed block the header loop finds every line end, and if it succeeds it stops at the last CRLF |
| HttpRequest.FramedNeverMissesLineEnd | src/http/request.cpp:272-274 | the missing-CRLF exit is never taken on a framed block |
| HttpRequest.FramedBlockIsAccountedFor | src/http/request.cpp:235-290 | a parsed framed block is its request's line, one line for each field and the empty line, to the byte |
| HttpRequest.ReadBlocksAreFramed | src/http/framing.cpp:23-32 | what read_header_block returns is framed |
| CharacterClasses.TokenCharsAreStandard | src/http/request.cpp:18-50 | method and name characters are the visible ones that are no delimiters, as in section 5.6.2 of RFC 9110 |
| CharacterClasses.ValueCharsAreStandard | src/http/request.cpp:140-151 | value characters are visible ones, blanks, and bytes from 128 on |
| CharacterClasses.TargetsBeyondStandard | src/http/request.cpp:65-80 | every path and query of RFC 3986 is accepted as a target, and exactly ten characters more |
| CharacterClasses.BlanksAreStandard | src/http/request.cpp:109-112 | blanks are space and tab |
| CharacterClasses.NamesIgnoreCase | src/http/request.cpp:153-171 | names are equal if and only if they are the same but for the case of letters |
| HttpRequest.FindConnectionToken | src/http/request.cpp:195-217 | the answer is that of the list which all Connection fields make together, exactly unless only a field after the first holds the token |
| HttpRequest.FirstFieldSufficesExactly | src/http/request.cpp:197-199 | the same for the specification; with at most one Connection field the two always agree |
| HttpRequest.TokenInCombinedList | src/http/request.cpp:201-214 | the combined list holds a token if and only if some field's list does |
| HttpRequest.KeepAliveFollowsStandardExactly | src/http/request.cpp:219-228 | for every parsed request, exactly when keep_alive_requested decides as section 9.3 of RFC 9112 does on the combined list |
| HttpRequest.OneFieldFollowsStandardExactly | src/http/request.cpp:219-228 | with at most one Connection field it does so unless a version 1.0 request gives both options |
| HttpRequest.CloseInSecondFieldIsMissed | src/http/request.cpp:197-199 | a valid version 1.1 request whose second Connection field asks to close is kept |
| HttpRequest.CloseBesideKeepAliveIsMissed | src/http/request.cpp:221-222 | a valid version 1.0 request that gives both options is kept |
| HttpRequest.FindToken | src/http/request.cpp:201-216 | the loop over list members finds the token if and only if some trimmed member is that token |
| HttpRequest.TokenInJoinedList | src/http/request.cpp:195-217 | a comma-separated list holds a token if and only if one of the members it was joined from is that token, less its padding |
| HttpResponse.SerializeByStream | src/http/response.cpp:76-101 | the stream output is the status line, the kept fields, the empty line and the body |
| HttpResponse.SerializedReadsBack | src/http/response.cpp:76-101 | if the reason holds no CRLF, the first empty line divides head and body, and a reader gets back the status line, the fields sent (values trimmed) and the body verbatim, for arbitrary header contents |
| HttpResponse.ReadsBackIffReasonIsOneLine | src/http/response.cpp:83 | it reads back if and only if the reason holds no CRLF |
| HttpResponse.ReasonWithLineEndIsCut | src/http/response.cpp:83 | otherwise the status line comes out shorter |
| HttpResponse.StatusLineReadsBack | src/http/response.cpp:83 | status and reason can be recovered from the status line |
| HttpResponse.FramingFieldsAreUnique | src/http/response.cpp:44-74 | exactly one Connection and one Content-Length are sent, and one Content-Type if the response sets it, whatever the custom headers are |
| HttpResponse.HeadLinesAreSent | src/http/response.cpp:84-97 | the lines after the status line are the fixed fields and then the valid custom headers that are not reserved, in order |
| ResponseReading.ClientReadsAll | src/http/response.cpp:76-101 | if the reason holds no CRLF the client reads status, reason, fields and body |
| ResponseReading.ClientReadsFraming | src/http/response.cpp:78-89 | the client finds keep-alive or close as the server decided, the length of the body or the length claimed, and the content type if it is usable |
| ResponseReading.ClientSeesClose | src/http/response.cpp:84-86 | by section 9.3 of RFC 9112 the client takes the connection as closing if and only if the server closes it |
| ResponseReading.ClientKnowsBodyLength | src/http/response.cpp:78-87 | the length the client reads is the body's |
| ResponseReading.ClientReadsCustomHeaders | src/http/response.cpp:90-97 | after the server's own fields the client reads exactly the well-formed custom headers that are not the server's, in their order |
| ResponseReading.ClientFindsHeader | src/http/response.cpp:90-97 | what the client finds under a name is the first such header of that name |
| Connection.ConnectionHandler.SendResponse | src/app/connection_handler.cpp:60-72 | logs the response once, sends what it serializes to, and can go on if the send succeeded or the peer had closed; other failures are reported |
| Connection.ConnectionHandler.AnswerRequest | src/app/connection_handler.cpp:182-201 | answers with the handler's response, with HSTS under HTTPS, and keeps the connection exactly if the request asked for it and the send was tolerated |
| Connection.ConnectionHandler.TakeTurn | src/app/connection_handler.cpp:121-201 | one turn after the read: the refusals 400, 408 and 431, the silent ends, or an answer |
| Connection.ConnectionHandler.ServeOne | src/app/connection_handler.cpp:110-203 | one turn of the loop is one unfolding of the session, and every further turn has used up a read |
| Connection.ConnectionHandler.HandleConnection | src/app/connection_handler.cpp:94-208 | the trace grows by exactly that of the specification's session, for every network, handler and set-up |
| Connection.SessionIsWellFormed | src/app/connection_handler.cpp:108-204 | in every session each response is logged exactly once, just before its send; refusals are 400, 408 or 431 and close; an answer is keep-alive if and only if its request asks for that; only a tolerated keep-alive response is followed by another |
| Connection.ServedIsWellFormed | src/app/connection_handler.cpp:94-208 | the same with the set-up of the stream included |
| Connection.OnlyTheLastMayClose | src/app/connection_handler.cpp:190-203 | every response but the last is keep-alive, and none follows a close |
| Connection.AnswersInOrder | src/app/connection_handler.cpp:165-203 | for a client that sends one request at a time, in any chunking, the responses are the handler's answers to its requests, in order, kept alive exactly as each request asks, up to the first that closes |
| Connection.NoAnswerIsMisplaced | src/app/connection_handler.cpp:165-203 | whatever the sends, timeouts and later reads do, the i-th response answers the i-th request |
| Connection.BrokenOffRequest | src/app/connection_handler.cpp:121-161 | a request that breaks off is answered with one 408 after a timeout, except on an idle kept connection; a closed peer leaves no trace, a failed read one report |
| Connection.FailingHandler | src/app/connection_handler.cpp:183-207 | a handler that throws ends the connection without an answer, and is reported once |
| Connection.FailedSetup | src/app/connection_handler.cpp:36-106 | without a stream, its timeouts and a handshake nothing is sent; only a peer that closes during the handshake goes unreported |
| Connection.SecuredAnswer | src/app/connection_handler.cpp:185-188 | under HTTPS every answer carries the handler's own transport-security policy or that of a year, and nothing else changes |
| Connection.OversizedRequest | src/app/connection_handler.cpp:141-156 | a header over the limit is answered with exactly one response, a 431 that closes, in every chunking |
| Connection.MalformedRequest | src/app/connection_handler.cpp:165-180 | a header block within the limit that does not parse is answered with exactly one response, a 400 that closes, in every chunking and whatever comes with its end or after it |
| Connection.EarlyBytesAreDropped | src/app/connection_handler.cpp:119-120 | bytes read along with the end of a header block never influence the session, in any chunking and over any network |
| Connection.HasteChangesNothing | src/app/connection_handler.cpp:110-203 | a client whose every request brings such bytes has the session it would have had without them, over any network |
| Connection.HastyAnswersInTurn | src/app/connection_handler.cpp:165-203 | so none of its responses answers another request than its own |
| Connection.HastyAnswersInOrder | src/app/connection_handler.cpp:165-203 | and over a network that works they are the handler's answers, in order, up to the first that closes |
| Base64Url.Base64UrlDecode | lib/jwt_auth/jwt_auth_module.cpp:191-244 | the loop, with its wrapping 32-bit accumulator, returns the bytes of the block-wise decoding of RFC 4648 |
| Base64Url.RunIsReference | lib/jwt_auth/jwt_auth_module.cpp:227-241 | the accumulator produces that decoding, wrapping or not |
| Base64Url.WrappingIsHarmless | lib/jwt_auth/jwt_auth_module.cpp:235 | the 32-bit accumulator gives the same bytes as an unbounded one |
| Base64Url.DecodedTextLength | lib/jwt_auth/jwt_auth_module.cpp:229-240 | a text with n alphabet characters, whatever else it holds, decodes to floor(6n / 8) bytes |
| Base64Url.StrangersAreIgnored | lib/jwt_auth/jwt_auth_module.cpp:229-234 | a character outside the alphabet never matters, wherever it stands |
| Base64Url.DecodeEncode | lib/jwt_auth/jwt_auth_module.cpp:191-244 | decoding the unpadded encoding of any bytes returns them |
| JsonClaims.ExtractStringByIndex | lib/jwt_auth/jwt_auth_module.cpp:246-280 | the text extractor returns what the specification extracts from the first occurrence of either pattern |
| JsonClaims.UnquoteByIndex | lib/jwt_auth/jwt_auth_module.cpp:260-279 | the loop with its escape flag reads up to the closing quote, each backslash taking the next character as it is |
| JsonClaims.ExtractIntByIndex | lib/jwt_auth/jwt_auth_module.cpp:282-314 | the integer extractor returns what the specification extracts |
| JsonClaims.ReadIntByIndex | lib/jwt_auth/jwt_auth_module.cpp:288-313 | spaces, an optional sign and the longest run of digits; the default without digits |
| JsonClaims.NumberReadsBack | lib/jwt_auth/jwt_auth_module.cpp:289-313 | after any spaces a number is read to its last digit, whatever follows |
| JsonClaims.OtherwiseDefault | lib/jwt_auth/jwt_auth_module.cpp:292-312 | anything else than digits, or a sign and digits, gives the default |
| JsonClaims.UnquoteOfAnyEscapes | lib/jwt_auth/jwt_auth_module.cpp:260-279 | a string is read back however many of its characters are escaped, up to its closing quote or the end |
| JsonClaims.NoKeyInside | lib/jwt_auth/jwt_auth_module.cpp:248-251 | in a printed member nothing but its own key looks like a key, whatever its string value contains |
| JsonClaims.SkipMember | lib/jwt_auth/jwt_auth_module.cpp:248-258 | so a search that does not match a member's key goes on after that member |
| JsonClaims.ExtractedText | lib/jwt_auth/jwt_auth_module.cpp:246-280 | from any printed flat object, each member with or without a space after its colon, the text stored under the key is returned, one without a space first, and nothing if there is none |
| JsonClaims.ExtractedNumber | lib/jwt_auth/jwt_auth_module.cpp:282-314 | likewise the number, and the default if there is none |
| JsonClaims.DistinctKeysLookup | lib/jwt_auth/jwt_auth_module.cpp:246-314 | with distinct keys that is the value of the member itself |
| JsonClaims.DigitsByIndex | lib/jwt_auth/jwt_auth_module.cpp:299-310 | the digit loop yields the value of the longest run of digits and computes no greater value on the way, so a number of magnitude below 2^63 never overflows |
| JsonClaims.LeastNumberIsReadThroughItsMagnitude | lib/jwt_auth/jwt_auth_module.cpp:293-313 | -2^63 fits, yet its digits are read as 2^63, which does not |
| Router.MatchTarget | lib/router/router_module.cpp:208-259 | the matcher's loop over its two indices returns the specification's captures |
| Router.QueryIsDropped | lib/router/router_module.cpp:208-214 | the path ends before the first question mark: a query, or its absence, never matters to a match |
| Router.PathHasNoQuery | lib/router/router_module.cpp:208-214 | a target is its path, or its path and a query |
| Router.MatchIsByParts | lib/router/router_module.cpp:226-252 | a pattern with an unclosed brace or an empty name matches nothing; any other is matched part by part |
| Router.PartsSpellPattern | lib/router/router_module.cpp:227-243 | the parts of a pattern are exactly its characters and its braced, non-empty names |
| Router.MatchFits | lib/router/router_module.cpp:208-259 | a match captures the pattern's parameters in order, with slash-free values that expand the pattern to the path, or to a beginning of it for a prefix pattern |
| Router.MatchesIfAndOnlyIfSomeFit | lib/router/router_module.cpp:226-258 | if every parameter is followed by a slash, another parameter or the end, a path matches if and only if such values exist |
| Router.FindsEveryFitExactlyIfSeparated | lib/router/router_module.cpp:227-251 | the matcher finds a fit on every path that has one if and only if parameters are separated so; any other pattern matches no path |
| Router.OnlyFitExactlyIfDetermined | lib/router/router_module.cpp:226-258 | for every pattern that has a meaning: the captured values are the only ones on every path if and only if every parameter is followed by a slash or ends an exact pattern |
| RouterConfig.ParseStatusCode | lib/router/router_module.cpp:62-78 | a status is a number from 100 to 999, read through no greater value; an empty text, another character and another number are told apart |
| RouterConfig.ParseRoutes | lib/router/router_module.cpp:154-175 | the reader returns the routes of all route lines in order, or the first error |
| RouterConfig.RouteMeansItsFields | lib/router/router_module.cpp:116-152 | fields are taken for a route if and only if they have a method, a target, and pass or a response with a status, and then for the route they write down |
| RouterConfig.RoutesAcceptedExactly | lib/router/router_module.cpp:154-175 | a text is accepted if and only if the fields of each of its route lines are, and each gives one route |
| RouterConfig.ReasonIsStandardExactly | lib/router/router_module.cpp:80-99 | a response's reason is the phrase of RFC 9110 and RFC 6585 exactly for fourteen statuses; all others are sent as OK |
| RouterConfig.PrintedRoutesReadBack | lib/router/router_module.cpp:154-175 | printing any valid routes among such lines and reading the text returns those routes in order |
| RouterConfig.ReadRoutesAreRoutes | lib/router/router_module.cpp:116-152 | every route read is a valid one: fields trimmed and non-empty where required, status in range, its own reason phrase |
| RouterConfig.ReadPrintRead | lib/router/router_module.cpp:154-175 | printing what was read, and reading it again, changes nothing |

## Left out

- Sockets, OpenSSL and the clock: a stream is a list of read outcomes (1 to 2048 bytes for a successful read), a send or timeout outcome is given, a timestamp is a parameter. Two timeouts at set-up are one given outcome.
- Loading modules and the C ABI: request handling is any function from requests to responses, with an exception as one of its outcomes. The pipeline that runs the modules in turn is inside that function.
- Threads and memory order: a step of the transition systems is a critical section or a notification. A stop request and the wake-up it causes are one step. Notifying all on close is inside the closing step, as in the code, where the lock is held.
- The moment of closing: the systems allow it at any time, the code closes when the pool is destroyed after the accept loop has left by an exception.
- Server.Server.Admit: its sections are taken in any state of the other threads, but without their steps in between; those steps are the interleavings of Dispatch.
- Server.Server.AcceptLoop: likewise, and it stops after a given list of accept results, where the code's loop is endless.
- Server.Server.ServeClient: likewise; the connection handler is a function that tells whether it throws, and its own work is modelled in Connection.
- Server.Server.ServeNext: likewise.
- Server.Server.RunWorker: likewise; it ends where the worker falls asleep, because waking up is a step of another thread.
- Allocation failures and exceptions between the acquire and the push.
- RateLimit.RateBound: over exact reals; the rounding of double arithmetic is not modelled, and the clock is never zero, which the code reads as a bucket never used.
- RateLimitConfig.ParsePositiveInt: the overflow of a digit string whose value, or that of its digits before another character, does not fit an int.
- RouterConfig.ParseStatusCode: likewise for a status.
- JsonClaims.ExtractIntByIndex: the overflow of a number of magnitude 2^63 or more.
- JsonClaims.ExtractedText: objects are flat and printed compactly, strings escape only quote and backslash, and keys hold no quote, backslash, comma, colon or closing brace; other escapes and nested values have no clear meaning in the code.
- Bytes: a `char` stands for a byte, and the proofs also hold for characters above 255.
- Connection.ConnectionHandler.HandleConnection: log records keep the request, the status and the size, not the client address and the times; the detail texts of reported errors are not kept.
- Router: choosing the first matching route and turning captures into headers are first-match scans.
- Signature, expiry, audience and the rest of token validation, static files, CORS, host and header guards, the route table, the command line and logging formats.
