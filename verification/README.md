# An event-driven HTTP server, modelled and proved

A Dafny model of an epoll-based HTTP/1.1 server written in C++: its incremental request
parser, its output path, its cross-thread protocols, its timers, its HTTP dates and
validators, its rate limiter and its metrics. Bytes are `char`, byte strings are `string`.
Objects that the server changes in place are classes here, proved against specification
functions on values; what the server promises is then proved about those functions, or is
an invariant of the class. Concurrent protocols are step machines: one step is one critical
section, one atomic access or one system call, and a schedule is any sequence of steps.

| file | content |
|---|---|
| `Text.dfy` | string helpers: searching, trimming, decimal numbers |
| `Buffer.dfy` | the array-backed byte queue under every connection |
| `HttpRequest.dfy`, `HttpParser.dfy` | requests and the resumable parser; chunk invariance |
| `HeaderText.dfy`, `ReverseProxy.dfy`, `ProxyRoundTrip.dfy` | the proxied request and its round trip through the parser |
| `FileBody.dfy`, `HttpResponse.dfy` | responses, the upstream parser and their round trip |
| `Connection.dfy` | event mask, kernel, and the output path of a connection |
| `Server.dfy` | parser, handler and connection together, end to end |
| `EventLoop.dfy`, `ThreadPool.dfy`, `AsyncLogging.dfy` | posting tasks, worker pool, double-buffered logging |
| `TimerQueue.dfy` | the doubly indexed timer queue under re-entrant callbacks |
| `HttpDate.dfy`, `EntityTag.dfy` | dates, entity tags and the 304 decision |
| `TokenBucket.dfy`, `Histogram.dfy`, `PeakCounter.dfy` | rate limiter, latency quantiles, connection peak |

## What stands for the outside world

- The kernel is a finite list of outcomes (any partial acceptance, zero, EAGAIN, EINTR, any
  other error), EAGAIN from then on; so every claim holds for any finite behaviour.
- Clocks and the iteration order of header maps are parameters; nothing depends on the
  order. The clock is read anew for each answer on a connection. The router is any function from requests to responses.
- Callbacks of timers are any scripts of add and cancel calls, with timers created on other
  threads in between.
- `double` is `real`. Widths are written out where they matter: the 32-bit event mask, the
  64-bit values in an entity tag, the saturation of `strtoul`, the cast to `uint64_t` in the
  peak counter.

## Where the code differs from what one might expect

- `kReadEvent` and `kWriteEvent` share EPOLLET (include/myself/net/Channel.h:22), so a
  connection that has never dropped write interest counts as writing. Wire order and progress
  hold all the same. But a half-close asked for before anything was sent is put off with no
  write event on its way: `ShutdownWrite` states the exact condition, `StalledHalfClose` is
  the input.
- A timer cancelled by an earlier callback of its own batch still runs, and is re-armed if it
  repeats (src/timer/TimerQueue.cpp:76-84); `Survives` in `TimerQueue.dfy` says exactly which
  timers are left.
- A timer created on another thread can be cancelled on the loop thread before its posted
  insertion arrives; the cancel finds nothing and the timer fires (src/timer/TimerQueue.cpp:22-51).
  `OvertakingCancelIsLost` is the input, `CancelIsExact` the condition.
- A log message that does not fit an empty buffer, the terminating NUL included, disappears
  (include/myself/log/LogStream.h:15-21); conservation is stated for the others.
- The year "00" of an RFC 850 date is taken for a missing year (src/http/Router.cpp:138), so
  dates of the year 2000 in that form are rejected, and only those.

## Model

| member | source | states |
|---|---|---|
| `ByteBuffer.Buffer.Retrieve` | src/net/Buffer.cpp:11-22 | dropping len bytes leaves exactly the rest of the readable bytes, or none when there were fewer |
| `ByteBuffer.Buffer.RetrieveAsString` | src/net/Buffer.cpp:24-29 | the returned string followed by what is left is what was readable; its length is the smaller of len and the readable count |
| `ByteBuffer.Buffer.MakeSpace` | src/net/Buffer.cpp:43-53 | moving down or growing loses no readable byte and leaves at least the requested free space |
| `ByteBuffer.Buffer.Append` | src/net/Buffer.cpp:37-41 | the readable bytes become the old ones followed by the new ones, whatever the free space was |
| `ByteBuffer.Buffer.ReadFd` | src/net/Buffer.cpp:55-79 | one readv of any size the two areas allow appends exactly the delivered bytes, split between array tail and overflow area |
| `HttpRequests.SetPathFragments` | src/http/HttpRequest.cpp:53-65 | any one-line target without a space gives a non-empty path without "?" or blank and a one-line query |
| `HttpRequests.SetPathOfPrinted` | src/http/HttpRequest.cpp:53-65 | gluing path and query together and splitting again gives the same path and query |
| `HttpRequests.FieldIsFound` | src/http/HttpRequest.cpp:67-78 | a field is found under its name in any spelling, with the value last stored and trimmed; no other field changes |
| `HttpParsing.StepSurvivesMoreBytes` | src/http/HttpParser.cpp:97-220 | a step that was decided on the bytes so far is decided the same when any bytes follow; in particular the early "too long, no CR LF yet" rejection agrees with the later per-line limit |
| `HttpParsing.DrainIsParseAndTake` | src/http/HttpParser.cpp:45-95 | draining is the loop "parse; if complete, take the request, reset, go on" |
| `HttpParsing.DrainSplits` | src/http/HttpParser.cpp:45-233 | draining a + b is draining a and going on with the leftover followed by b: requests, verdict, parser state and leftover bytes; after a rejection nothing more is delivered |
| `HttpParsing.DrainEndsQuiet` | src/http/HttpParser.cpp:45-95 | a drain ends blocked on missing bytes or in the error state, and the verdict says which |
| `HttpParsing.ChunkInvariance` | src/http/HttpParser.cpp:45-233 | for every way of cutting a byte stream, feeding the chunks delivers the requests and the final verdict of the uncut stream; without a rejection also the same parser state and leftover bytes |
| `HttpParsing.TwoChunkingsAgree` | src/http/HttpParser.cpp:45-233 | two ways of cutting one stream agree in the same sense from a fresh connection |
| `HttpParsing.DeliveredRequestsAreWellFormed` | src/http/HttpParser.cpp:97-220 | every request delivered from any byte stream has a known method and version, a clean non-empty path, a clean query and canonical header fields; keep-alive is the default of HTTP/1.1 only, unless the Connection field mentions close or keep-alive; the body has the announced length, within the limit |
| `HttpParsing.RequestIsConsumed` | src/http/HttpParser.cpp:97-220 | a complete request consumes exactly its head, within the limit and as long as the parser counted, and its body |
| `HttpParsing.LeftoverIsBounded` | src/http/HttpParser.cpp:102-107 | a parser that waits holds at most the head limit, or less than the announced length of a body within the body limit |
| `HttpParsing.RequestLineIsExact` | src/http/HttpParser.cpp:116-142 | a line is accepted if and only if it is one of three methods, a target and one of two versions between single spaces; which method, path, query, version and keep-alive default that means |
| `HttpParsing.HeaderLineIsExact` | src/http/HttpParser.cpp:185-209 | a line is accepted if and only if it has a colon, a name in front of it and digits for a Content-Length; it changes the field of that name, the announced length and keep-alive, and nothing else |
| `HttpParsing.HttpParser.TakeLine` | src/http/HttpParser.cpp:97-110 | takes exactly the bytes up to the first CR LF out of the buffer, or nothing when there is none |
| `HttpParsing.HttpParser.AcceptRequestLine` | src/http/HttpParser.cpp:116-142 | accepts exactly the lines the request-line grammar accepts and stores method, path, query, version and keep-alive default as it says |
| `HttpParsing.HttpParser.AcceptHeaderLine` | src/http/HttpParser.cpp:185-209 | accepts exactly the lines the header grammar accepts, with the effect of Content-Length and Connection |
| `HttpParsing.HttpParser.ParseRequestLine` | src/http/HttpParser.cpp:97-146 | outcome, fields and buffer are those of one grammar step |
| `HttpParsing.HttpParser.ParseHeader` | src/http/HttpParser.cpp:149-210 | one pass of the header loop is one grammar step |
| `HttpParsing.HttpParser.ParseHeaders` | src/http/HttpParser.cpp:148-211 | the header loop follows the grammar steps up to the body, the end of the request, a rejection or missing bytes |
| `HttpParsing.HttpParser.ParseBody` | src/http/HttpParser.cpp:213-220 | the body is complete exactly when the announced bytes are there, and then exactly those are taken |
| `HttpParsing.HttpParser.ParseBuffer` | src/http/HttpParser.cpp:45-95 | one parse call on the real buffer: result, fields and remaining bytes are those of the specification function Parse |
| `HttpParsing.HttpParser.TakeRequest` | src/http/HttpParser.cpp:222-233 | hands the request out and returns to the initial state |
| `ProxyRequests.CopyHeaders` | src/http/ReverseProxy.cpp:107-124 | the header loop prints exactly the passed-on headers in iteration order and finds Host and X-Forwarded-For, for any iteration order |
| `ProxyRequests.InjectTracing` | src/http/ReverseProxy.cpp:126-139 | appends exactly the tracing headers, with the client address behind an earlier X-Forwarded-For |
| `ProxyRequests.BuildRequest` | src/http/ReverseProxy.cpp:98-150 | the stream-building code produces the message PrintRequest specifies |
| `ProxyRoundTrip.PlainBlockIsStored` | src/http/ReverseProxy.cpp:109-139 | a printed block of ordinary headers is read back as storing them one after the other, the last one winning |
| `ProxyRoundTrip.PathIsRewritten` | src/http/ReverseProxy.cpp:21-34 | the prefix is taken off and a slash put in front when there is none; without a prefix to take off the path stays as it is |
| `ProxyRoundTrip.HeadersAreRewritten` | src/http/ReverseProxy.cpp:104-144 | the rules field by field: own fields, address list with the client behind it, client address, host asked for, length exactly with a body, and every other field as the client sent it |
| `ProxyRoundTrip.RewrittenPathIsClean` | src/http/ReverseProxy.cpp:21-39 | stripping the prefix keeps a path non-empty, on one line and free of blanks and "?" |
| `ProxyRoundTrip.RequestLineIsRead` | src/http/ReverseProxy.cpp:99-103 | the printed request line parses to the same method and query, the rewritten path and HTTP/1.1 |
| `ProxyRoundTrip.InjectedIsStored` | src/http/ReverseProxy.cpp:126-139 | reading the tracing headers back overrides what the client sent under those names |
| `ProxyRoundTrip.LengthLineIsRead` | src/http/ReverseProxy.cpp:141-144 | the decimal Content-Length line is read back as exactly that number |
| `ProxyRoundTrip.RequestRoundTrip` | src/http/ReverseProxy.cpp:98-150 | for every request the parser can deliver and one-line host and client address, the proxied bytes parse back, consuming exactly the message whatever follows, to the same method, query and body, no keep-alive, the path without the prefix, and exactly the header fields of the rules above |
| `HttpResponses.Serialize` | src/http/HttpResponse.cpp:20-49 | the serializer with its header loop prints status line, fixed headers, own headers, default length and Connection in that order, and the body only on request |
| `HttpResponses.TakeHeaderLine` | src/http/ReverseProxy.cpp:239-255 | one pass of the upstream header loop, blank-erasing loop included, stores the header the line names, or nothing |
| `HttpResponses.ParseUpstream` | src/http/ReverseProxy.cpp:192-262 | all branches of the upstream parser: empty answer, no blank line, missing status fields, headers, body and added headers |
| `HttpResponses.HeadEnds` | src/http/ReverseProxy.cpp:197-208 | in a printed message the first blank line is the end of the head, whatever the body contains |
| `HttpResponses.HeadSplits` | src/http/ReverseProxy.cpp:210-246 | reading a printed head line by line gives its lines, each but the last with its CR |
| `HttpResponses.StatusLineIsRead` | src/http/ReverseProxy.cpp:219-232 | a printed status line gives back code (negative ones included) and message |
| `HttpResponses.DateIsTransparent` | src/http/HttpResponse.cpp:9-16 | what the clock prints, at any time, survives as a header value |
| `HttpResponses.SerializedIsRead` | src/http/HttpResponse.cpp:20-49 | the round trip with any printable text in the place of the date |
| `HttpResponses.MessageIsRead` | src/http/HttpResponse.cpp:20-49 | whatever bytes follow a serialized head are the body of the message; it starts with HTTP/1.1, status and headers read back, and the last line of the head is "Connection: close" exactly when the response closes, "Connection: keep-alive" otherwise |
| `HttpResponses.UpstreamWithoutMessage` | src/http/ReverseProxy.cpp:192-205 | 502 for an empty answer; bytes without a blank line are passed on as text |
| `HttpResponses.ShortStatusLine` | src/http/ReverseProxy.cpp:219-232 | a status line without a message still gives its code, one without a code 200 |
| `HttpResponses.ResponseRoundTrip` | src/http/HttpResponse.cpp:20-49 | for every response with CR/LF-free text, colon-free names, no leading blanks in values and no Connection header, the upstream parser applied to the bytes serialized at any time gives back status, message, exact body and every header, plus what serializer and proxy add |
| `Connections.MaskFacts` | include/myself/net/Channel.h:22-63 | the exact bits: write interest implies EPOLLOUT, dropping it clears both, but a channel that only reads counts as writing because of the shared EPOLLET bit |
| `Connections.Channel.EnableWriting` | include/myself/net/Channel.h:52-55 | EPOLLOUT is armed and the mask is the old one with the write bits |
| `Connections.Channel.DisableWriting` | include/myself/net/Channel.h:56-59 | neither isWriting nor EPOLLOUT is left, and exactly the write bits are cleared |
| `Connections.BufferToWire` | src/net/TcpConnection.cpp:238-247 | any prefix of the buffered bytes that may go now can move to the wire without disturbing the order of wire, buffer, file rest and later bytes |
| `Connections.ChunkToWire` | src/net/TcpConnection.cpp:238-250 | the same for any written part of the chunk handed to write, with the count of bytes before the file reduced by it |
| `Connections.FileToWire` | src/net/TcpConnection.cpp:266-275 | once nothing is due before it, any prefix of the file rest can move to the wire |
| `Connections.DataToBuffer` | src/net/TcpConnection.cpp:70-73 | appended data goes behind everything enqueued so far, a pending file included |
| `Connections.DataToWire` | src/net/TcpConnection.cpp:55-68 | with nothing waiting, a partly accepted direct write leaves the rest in order |
| `Connections.FileBehindBuffer` | src/net/TcpConnection.cpp:104-108 | a file takes its place behind all buffered bytes |
| `Connections.TcpConnection.NotWritingMeansAllSent` | src/net/TcpConnection.cpp:114-117 | in every open state between calls, not writing means nothing pending and everything enqueued on the wire |
| `Connections.TcpConnection.WriteChunk` | src/net/TcpConnection.cpp:239-261 | one write with any outcome keeps the wire order and the count of bytes before the file |
| `Connections.TcpConnection.FlushOutput` | src/net/TcpConnection.cpp:238-264 | keeps the wire order; succeeds only with the limit written, stops only at EAGAIN, closes only when the kernel failed |
| `Connections.TcpConnection.SendPendingFile` | src/net/TcpConnection.cpp:266-298 | the same for sendfile, also when the file turns out to be truncated |
| `Connections.TcpConnection.HandleWrite` | src/net/TcpConnection.cpp:205-236 | keeps WIRE ORDER (wire, bytes before the file, file rest, bytes after it make up everything enqueued) for any partial writes; leaving work behind means the kernel answered EAGAIN and EPOLLOUT stays armed; leaving none drops write interest and performs a deferred half-close; a close is the kernel's fault |
| `Connections.TcpConnection.SendInLoop` | src/net/TcpConnection.cpp:51-74 | appends exactly the data to the enqueued history and keeps the invariant, whether written directly, in part, or buffered |
| `Connections.TcpConnection.Send` | src/net/TcpConnection.cpp:44-49 | the same on an open connection; nothing on a closed one |
| `Connections.TcpConnection.ReadWholeFile` | src/net/TcpConnection.cpp:84-99 | reads exactly the file region when no pread fails, a prefix otherwise, for any short reads and interruptions |
| `Connections.TcpConnection.SendFile` | src/net/TcpConnection.cpp:76-112 | enqueues exactly the file bytes in call order, by sendfile or by the buffered copy, any number of pipelined files, whenever no pread of this call fails; a prefix of them otherwise |
| `Connections.TcpConnection.ShutdownWrite` | src/net/TcpConnection.cpp:114-124 | SHUT_WR only with everything enqueued on the wire; it is issued at once if and only if the connection is neither writing nor pending, and otherwise has a write event on its way if and only if EPOLLOUT is armed |
| `Connections.TcpConnection.HandleClose` | src/net/TcpConnection.cpp:300-323 | drops the pending file and keeps the wire a prefix of what was enqueued |
| `Connections.StalledHalfClose` | src/net/TcpConnection.cpp:114-124 | the failing input: on a connection that never sent anything the half-close is put off with no write event on its way |
| `FileBodies.FileBytesAreTheRegion` | include/myself/util/FileBody.h:12-40 | the bytes of a file are exactly its announced region, or what is left of it in a file that became shorter |
| `Server.ReplyAnswers` | src/main.cpp:473-493 | what is sent for a request is, whatever follows it, a message with the status, message and headers of the handler, whose content is the body and the file of the handler, or nothing for HEAD, and which announces to stay open exactly when the request is keep-alive |
| `Server.RepliesAreAnswers` | src/main.cpp:452-528 | the replies to a list of requests are such answers, one after the other |
| `Server.RejectionAnswers400` | src/main.cpp:454-461 | what is sent for rejected input is a message with status 400 that announces to close |
| `Server.ServeIsExact` | src/main.cpp:452-528 | on any input the callback answers the drained requests up to and including the first that is not keep-alive, and nothing after it; otherwise a rejection follows the answers; it half-closes in these two cases only |
| `Server.ServeIsDrain` | src/main.cpp:448-529 | on accepted keep-alive input the callback answers exactly the drained requests in order, each with its own clock reading, and leaves parser and input as the drain does |
| `Server.OwedGrows` | src/main.cpp:448-529 | an orderly stream has orderly prefixes, and what is owed for a prefix is a prefix of what is owed |
| `Server.PieceIsServed` | src/main.cpp:448-529 | serving one more piece where the last one left off yields exactly what it adds to the bytes owed, however the pieces are cut |
| `Server.Session.Respond` | src/main.cpp:473-493 | enqueues exactly the reply bytes of one request under a clock reading of its own, head-only and file bodies included, and half-closes exactly after a request that is not keep-alive |
| `Server.Session.AnswerNext` | src/main.cpp:452-528 | one pass of the callback loop: what it enqueues, what it leaves, whether it goes on |
| `Server.Session.OnMessage` | src/main.cpp:448-529 | the whole callback enqueues what Serve specifies and leaves its parser state and input |
| `Server.Session.HandleRead` | src/net/TcpConnection.cpp:164-203 | reading in pieces of any size keeps "all bytes received are drained and answered" |
| `Server.Session.WireCarriesAnswers` | src/main.cpp:448-529 | the invariants bound the wire by the bytes owed |
| `Server.Session.Run` | src/main.cpp:448-529 | END TO END: for every orderly keep-alive stream, any input chunking, any clock reading for each answer, any kernel behaviour and any event order, the wire is a prefix of the answers in request order - answers in the sense of ReplyAnswers -; an open connection has enqueued all of them, and with nothing pending the wire carries exactly them; it is closed only by a drop or a kernel failure |
| `EventLoops.StepKeepsInv` | src/net/EventLoop.cpp:44-121 | every atomic action of every thread keeps the posting invariant |
| `EventLoops.PostedInOrderExactlyOnce` | src/net/EventLoop.cpp:75-121 | in every reachable state executed, swapped-out and pending tasks are, in this order, all posted tasks in lock order |
| `EventLoops.NoLostWakeup` | src/net/EventLoop.cpp:44-106 | whenever the loop is in epoll_wait with tasks pending or a quit requested, the wakeup channel is ready or some thread has yet to write the eventfd, and that write makes it ready |
| `EventLoops.RoundRunsEverythingQueued` | src/net/EventLoop.cpp:48-57 | from any reachable wait, when the loop tests quit_ again everything queued by then has been run |
| `EventLoops.EventLoop.QueueInLoop` | src/net/EventLoop.cpp:75-84 | the locked push is the posting action, and the decision to wake is right |
| `EventLoops.EventLoop.TakePending` | src/net/EventLoop.cpp:108-114 | the swap takes exactly the pending tasks |
| `EventLoops.EventLoop.HandleWakeup` | src/net/EventLoop.cpp:101-106 | in every possible schedule in which others write the eventfd between the reads, the loop does what the protocol does and ends with the counter at zero |
| `EventLoops.EventLoop.DoPendingFunctors` | src/net/EventLoop.cpp:108-121 | in every possible schedule in which tasks and other threads post more, the code does what the protocol does; everything queued before it has run when it returns, and whatever is still pending has a wakeup pending or on its way |
| `EventLoops.EventLoop.RunTasks` | src/net/EventLoop.cpp:115-119 | the loop over the local vector runs exactly the swapped-out functors, in order |
| `ThreadPools.StepKeepsInv` | src/thread/ThreadPool.cpp:17-91 | every critical section, notification, spurious wakeup and task end keeps the books and the wakeup invariant |
| `ThreadPools.TakenInOrderRunOnce` | src/thread/ThreadPool.cpp:49-91 | accepted tasks are those taken, in submit order, then those queued; those taken are, as a multiset, the finished ones and the ones in hand |
| `ThreadPools.StopDrains` | src/thread/ThreadPool.cpp:32-91 | when stop has joined at least one worker the queue is empty and exactly the accepted tasks have run, each once |
| `ThreadPools.NoWorkerSleepsThrough` | src/thread/ThreadPool.cpp:49-76 | a sleeping worker with tasks queued has a notification or a woken worker for each of them; none sleeps through a stop |
| `ThreadPools.ThreadPool.Submit` | src/thread/ThreadPool.cpp:49-58 | the locked push, or the exception exactly when the pool is not running |
| `ThreadPools.ThreadPool.EnterWorker` | src/thread/ThreadPool.cpp:65-80 | takes the oldest task, exits exactly when stopped with nothing left, sleeps otherwise |
| `AsyncLogs.FixedBuffer.Append` | include/myself/log/LogStream.h:15-25 | text is appended whole or, when it and the NUL do not fit, dropped whole |
| `AsyncLogs.FixedBuffer.Reset` | include/myself/log/LogStream.h:28-31 | the buffer is empty again |
| `AsyncLogs.AsyncLogging.Append` | src/log/AsyncLogging.cpp:42-60 | the message goes to the end of the appended history, across a hand-over; only one that does not fit an empty buffer is lost; the buffer taken over is empty without a reset |
| `AsyncLogs.AsyncLogging.Flush` | src/log/AsyncLogging.cpp:62-77 | hands a non-empty buffer over, loses nothing and leaves an empty current buffer |
| `AsyncLogs.AsyncLogging.Swap` | src/log/AsyncLogging.cpp:88-106 | the locked section moves exactly the full buffers and the current one to the writer, in order |
| `AsyncLogs.AsyncLogging.WriteOne` | src/log/AsyncLogging.cpp:108-111 | one buffer more is in the file, and nothing is lost or reordered |
| `AsyncLogs.AsyncLogging.Recycle` | src/log/AsyncLogging.cpp:113-136 | two emptied buffers are kept in their own slots, no buffer ends up in two, nothing unwritten is freed |
| `AsyncLogs.AsyncLogging.Drain` | src/log/AsyncLogging.cpp:139-150 | after the final drain the file is exactly what was appended |
| `AsyncLogs.AsyncLogging.Run` | src/log/AsyncLogging.cpp:42-151 | over every interleaving each buffer is in at most one slot, the history is exactly the fitting messages of the actions executed, in lock order, the file is a prefix of it with the rest in the buffers, only the final drain ends the run early, and the drained file misses nothing |
| `TimerQueues.InsertedEntries` | src/timer/TimerQueue.cpp:39-42 | inserting keeps the order and adds exactly the entry |
| `TimerQueues.ErasedEntries` | src/timer/TimerQueue.cpp:44-56 | erasing by key keeps the order and removes exactly the entry with that key |
| `TimerQueues.BatchKeepsAgreement` | src/timer/TimerQueue.cpp:69-86 | for any callbacks that add and cancel timers, set and map agree after the batch; inside it they differ only in expired timers still to be run |
| `TimerQueues.SurvivesBatch` | src/timer/TimerQueue.cpp:76-85 | a timer known before the batch is registered after it if and only if it was not due, or repeats, and no callback from its own turn on (or at all, when not due) cancelled it |
| `TimerQueues.TimesOfBatch` | src/timer/TimerQueue.cpp:76-85 | after a batch a due timer that is left expires one interval after the batch time, in whole nanoseconds; any other timer that is left is what it was |
| `TimerQueues.BatchKeepsLog` | src/timer/TimerQueue.cpp:76-85 | every firing of the batch is a later firing of a repeating timer or the first of its timer |
| `TimerQueues.DueTimers` | src/timer/TimerQueue.cpp:69-74 | the popped entries are exactly those not later than now |
| `TimerQueues.PoppingAgrees` | src/timer/TimerQueue.cpp:69-74 | popping the due entries leaves the indexes agreeing up to the batch |
| `TimerQueues.NextTimeoutMs` | src/timer/TimerQueue.cpp:58-67 | -1 exactly without timers, 0 exactly when less than a millisecond is left, never past the earliest expiration, at most a day |
| `TimerQueues.TimerQueue.CancelInLoop` | src/timer/TimerQueue.cpp:44-56 | removes the timer from both indexes, or does nothing for foreign and unknown handles |
| `TimerQueues.TimerQueue.TakeDue` | src/timer/TimerQueue.cpp:69-74 | the popping loop takes exactly the due timers in firing order |
| `TimerQueues.TimerQueue.FireTimer` | src/timer/TimerQueue.cpp:76-85 | one turn: re-armed one interval (in seconds, to the nanosecond) after the batch time before it runs, or taken out of the map, then the callback |
| `TimerQueues.TimerQueue.HandleExpiredTimers` | src/timer/TimerQueue.cpp:69-86 | runs exactly the timers due on entry, once each, in (when, sequence) order, whatever the callbacks and other threads do; the indexes agree again, posted timers stay posted, survival is exact and the survivors expire at the right time |
| `TimerQueues.TimerQueue.AddTimer` | src/timer/TimerQueue.cpp:22-30 | the number is drawn at once; the timer is inserted on the loop thread and only posted on any other |
| `TimerQueues.TimerQueue.RunInsertion` | src/timer/TimerQueue.cpp:28-42 | the posted task moves the timer into both indexes |
| `TimerQueues.RunKeepsRest` | src/timer/TimerQueue.cpp:22-86 | over every run of calls, arrivals and batches the indexes agree, a one-shot fires at most once, firings of a repeating timer are at least an interval apart, measured in seconds, and a timer neither registered nor posted never fires again |
| `TimerQueues.NeverFiresIsExact` | src/timer/TimerQueue.cpp:22-86 | a timer whose number has been drawn never fires in any continuation if and only if it is neither registered nor posted |
| `TimerQueues.CancelIsExact` | src/timer/TimerQueue.cpp:32-56 | a cancel outside a batch takes effect if and only if the timer is registered at that moment; of one still on its way it changes nothing |
| `TimerQueues.OvertakingCancelIsLost` | src/timer/TimerQueue.cpp:22-56 | the input: created on another thread, cancelled on the loop thread before the posted insertion, and fired, in every queue and with any callbacks |
| `TimerQueues.TimerQueue.Run` | src/timer/TimerQueue.cpp:22-86 | the object follows the run specification, so the log of firings has the properties above, with "neither registered nor posted" for what never fires |
| `HttpDates.DayCountIsExact` | src/http/Router.cpp:149-158 | the closed formula equals counting Gregorian days year by year and month by month from 1970-01-01, for every valid date, before 1970 too |
| `HttpDates.DayNumbersGrow` | src/http/Router.cpp:149-158 | the formula is strictly monotone in the date |
| `HttpDates.CivilDateIsRight` | src/http/Router.cpp:42-58 | the calendar date of a day number is valid and has that day number |
| `HttpDates.Tokenize` | src/http/Router.cpp:73-88 | the splitting loop yields the words between separators |
| `HttpDates.ParseHttpDate` | src/http/Router.cpp:65-162 | the parser with its loops computes the specified value or rejection |
| `HttpDates.HttpDateRoundTrip` | src/http/Router.cpp:53-162 | printing t as an IMF-fixdate and parsing gives back t, for every second of 1970 to 9999 |
| `HttpDates.HttpDateLayout` | src/http/Router.cpp:53-58 | the printed date has the 29 places of an IMF-fixdate |
| `HttpDates.WeekdaysFollow` | src/http/Router.cpp:53-58 | the weekday printed for a day is followed on the next day by the next one |
| `HttpDates.ExampleDate` | src/http/Router.cpp:53-58 | the example of RFC 9110, a Sunday, is printed as there |
| `HttpDates.FixdateIsExact` | src/http/Router.cpp:65-162 | with any numbers in it, a date of this form is accepted if and only if the day is 1 to 31 and the clock shows a time of day, leap second included; a day of the calendar gets its day number |
| `HttpDates.AsctimeRoundTrip` | src/http/Router.cpp:65-162 | the same for the asctime form, with its padded day |
| `HttpDates.Rfc850RoundTrip` | src/http/Router.cpp:128-143 | the same for two-digit years 1970 to 2069, rejected if and only if the year is 2000 |
| `EntityTags.ETagIsInjective` | src/http/Router.cpp:166-172 | equal tags mean equal modification time and size, over all 64-bit values |
| `EntityTags.TagSpellsTimeAndSize` | src/http/Router.cpp:166-172 | the tag spells the 64-bit time, a dash and the size in hexadecimal |
| `EntityTags.EtagMatches` | src/http/Router.cpp:175-197 | the comma loop decides "*" or some matching piece |
| `EntityTags.AnyMatchesAcrossComma` | src/http/Router.cpp:180-195 | matching distributes over a comma at any place of the header |
| `EntityTags.CommaTagDoesNotMatch` | src/http/Router.cpp:180-195 | a tag with a comma inside falls into fragments none of which can match a quoted tag |
| `EntityTags.ListMatchIsExact` | src/http/Router.cpp:166-197 | for every well-formed list (RFC 9110, sections 8.8.3 and 13.1.2), blanks, empty elements, weak tags and commas in tags included, the loop returns true if and only if some member weakly equals the file's tag |
| `EntityTags.MatchNamesTheFile` | src/http/Router.cpp:166-197 | among tags of this server a match means the client holds exactly that modification time and size |
| `EntityTags.TagsDecide` | src/http/Router.cpp:200-205 | with If-None-Match present the list alone decides, whatever the date says |
| `EntityTags.StarDecides` | src/http/Router.cpp:175-178 | "*", with blanks around it, gives 304 |
| `EntityTags.NothingToCompare` | src/http/Router.cpp:200-215 | without validators, or with an unreadable date, there is no 304 |
| `EntityTags.DateDecides` | src/http/Router.cpp:206-214 | a date this server printed, in either form, gives 304 exactly when the file is not newer |
| `TokenBuckets.TokenBucket.TryAcquire` | src/util/TokenBucket.cpp:23-37 | decision and new state, refill included, for any clock sample |
| `TokenBuckets.TokenBucket.RefillLocked` | src/util/TokenBucket.cpp:76-90 | the refill with its early returns, truncation and cap |
| `TokenBuckets.TokenBucket.Configure` | src/util/TokenBucket.cpp:12-21 | negative rates count as zero, a burst that is not positive becomes the rate, and the bucket starts full |
| `TokenBuckets.CreditIsFair` | src/util/TokenBucket.cpp:81-88 | truncation to microseconds credits at least half and never more than the elapsed time is worth |
| `TokenBuckets.TokensStayInRange` | src/util/TokenBucket.cpp:12-90 | tokens stay between 0 and the burst over any calls with any clock samples |
| `TokenBuckets.RateBound` | src/util/TokenBucket.cpp:23-90 | over any requests, clock samples in any order, tokens granted are at most the burst plus rate times the advance of the refill time |
| `TokenBuckets.WindowBound` | src/util/TokenBucket.cpp:23-90 | requests sampled within any window of the clock get at most one burst plus the rate over the window (plus one microsecond) |
| `TokenBuckets.LimitHoldsAfterAnyHistory` | src/util/TokenBucket.cpp:10-90 | the same for a bucket with any history of requests, resets and reconfigurations |
| `TokenBuckets.ConfiguredLimitHolds` | src/util/TokenBucket.cpp:10-90 | in terms of the rate and burst asked for: any window gets at most the rate over it and one burst, the rate itself when no burst was given, after any history of requests and resets |
| `TokenBuckets.FullBucketGrants` | src/util/TokenBucket.cpp:12-37 | a new or reset bucket grants exactly what fits its burst; without a positive rate everything is granted |
| `TokenBuckets.HalfIsCredited` | src/util/TokenBucket.cpp:76-90 | while no refill is capped, tokens left and granted are at least the initial tokens plus half the rate over the advance of the refill time |
| `TokenBuckets.AvailableIsWhatCanBeTaken` | src/util/TokenBucket.cpp:23-51 | the snapshot is exact: a request at the same sample is granted if and only if it asks for no more |
| `TokenBuckets.PatientRequestIsGranted` | src/util/TokenBucket.cpp:23-37 | more than the burst is never granted; anything else is, at the latest after twice the time the missing tokens are worth |
| `Histograms.Metrics.OnRequestFinished` | src/util/Metrics.cpp:71-92 | the buckets, the status classes, the counts and the truncated sum are those of the recorded history |
| `Histograms.Metrics.CountLatency` | src/util/Metrics.cpp:85-91 | exactly the first bucket whose bound is not below the latency is counted, or the last |
| `Histograms.ClassIsTheHundreds` | src/util/Metrics.cpp:74-77 | a status is counted under its hundreds, when these are 1 to 5 |
| `Histograms.SumIsAccurate` | src/util/Metrics.cpp:79-83 | the sum of whole microseconds is below the true sum by less than one per latency |
| `Histograms.BoundsAreOneTwoFive` | src/util/Metrics.cpp:9-10 | the bounds are 1, 2 and 5 in every decade |
| `Histograms.QuantileFromBuckets` | src/util/Metrics.cpp:133-160 | the loop with all its returns computes the specified estimate, for any bucket array and any total |
| `Histograms.HitIsTheOrderStatistic` | src/util/Metrics.cpp:142-147 | the bucket found is the one the latency of rank ceil(q n) fell into |
| `Histograms.QuantileBrackets` | src/util/Metrics.cpp:133-160 | for q > 0 and recorded latencies the empty-bucket return and the fall-through are never taken, and the estimate lies in the range of the bucket of the true order statistic of any sorted order of the latencies |
| `Histograms.QuantileIsInterpolated` | src/util/Metrics.cpp:142-157 | inside its bucket the estimate divides the range as the target divides the latencies of the bucket |
| `Histograms.QuantileIsWithinFactor` | src/util/Metrics.cpp:133-160 | between 1 ms and 5 s the estimate is within a factor of 2.5 of the true order statistic |
| `Histograms.QuantileIsMonotone` | src/util/Metrics.cpp:133-160 | the estimate is monotone in q and between 0 and 10000, for every q |
| `PeakCounters.StepKeepsInv` | src/util/Metrics.cpp:28-43 | every atomic access keeps "a value above the recorded maximum is covered by an open in flight" |
| `PeakCounters.PeakIsExact` | src/util/Metrics.cpp:28-43 | for any interleaving, spurious failures included, the maximum only grows, is a value the count has had, and is the largest of them whenever no open is in flight |
| `PeakCounters.MissingPeakIsOnItsWay` | src/util/Metrics.cpp:28-39 | a value missing from the maximum is covered by an open in flight that saw at least as much |
| `PeakCounters.FailureMeansProgress` | src/util/Metrics.cpp:32-37 | a compare-and-swap that fails without being spurious was overtaken by a larger maximum |
| `PeakCounters.Counters.OnConnectionOpened` | src/util/Metrics.cpp:28-39 | against any interference the loop performs only the allowed atomic accesses and returns with the maximum at least its own value |

## Left out

- Response ordering with worker threads: requests are offloaded one by one (src/main.cpp:512-520) and their answers may overtake each other, so the end-to-end claim is about the configuration without workers, and without the rate limiter.
- Input after a rejected request or one with `Connection: close`: the callback can be entered again on what is left, so the end-to-end claim is about keep-alive streams the parser accepts.
- Connections.TcpConnection.SendFile: when one of its own `pread` calls fails it only promises a prefix of the file in its place, and `Server.Session.Run` says nothing about the wire of such runs; a file that became shorter than announced counts as the bytes it still has.
- Tasks queued before `loop()` starts or still queued when it quits, which the loop does not promise to run; a failing `write` to the eventfd, which the source ignores because a wakeup is then pending.
- Restarting a worker pool or a logger after `stop`, and log calls after the logger has drained; the condition variable of the logger, which only delays the background thread.
- `AsyncLogging` holds its buffers as values with an identity, because the source moves them through `unique_ptr` and never aliases them; `FixedBuffer` is modelled on its array separately, and their sizes are a parameter. `LogFile` is the string of everything written.
- Timers are values that `restart` replaces; a cancel from another thread is posted and arrives as a call between batches, in any order with the posted insertions.
- `HttpRequest` and `HttpResponse` are values, as in the source, which copies and moves them.
- The connection registry, the exactness of the connection limit, and idle timers other than as a reason to close.
- Reads of the rate in `TokenBucket` outside the mutex while another thread reconfigures it.
- Counter overflow in `Metrics`, quantiles taken while an update is in flight, the total of opened connections, and the text renderings.
- PeakCounters.Counters.OnConnectionOpened: assumes fewer than 2^63 open connections and closes that follow their opens.
- Rounding of `double`, overflow of `atoi` and `sscanf`, and `gmtime`/`strftime` beyond the Gregorian calendar they print.
- Name resolution, sockets, timeouts and the error answers of the proxy around its printer and parser; the router's file serving, path checks and content types.
- `Logger`, `LogFile` rotation, `Acceptor`, `Epoller`, `Socket`, command line, start-up and shutdown of threads.
