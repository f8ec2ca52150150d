# Verified model of the reactor library

This project models the stateful core of a muduo-style C++ network library and proves, for every
input and every run, what its parts promise: the timer queue with re-entrant callbacks, the two
pollers, the byte buffer with the framed protobuf codec and the incremental HTTP parser on top of it,
the event loop's functor queue, the sending side of a connection, the teardown of connections across
loops, the asynchronous logger, the bounded queue behind the thread pool, calendar arithmetic and
integer printing.

`dafny verify dfyconfig.toml` checks everything.

## How it is organised

Most components have two layers. A transition system on values describes each operation of the source
as a function from state to state, with the steps the environment may take; lemmas prove an invariant
of every step and then theorems about every run. Beside it a class has the fields of the C++ class, and
its methods, with the loops and the assertions of the source, are proved to take exactly those
transitions. Protocols between threads are transition systems only: one step is one critical section
or one system call.

| files | component |
|---|---|
| `Common` | C division, 32-bit range, connection states, optional values |
| `TimerSet`, `TimerModel`, `TimerTheorems`, `TimerQueue` | net/TimerQueue.cc, net/Timer.h |
| `PollerModel`, `Pollers` | net/poller/PollPoller.cc, net/poller/EPollPoller.cc, net/Channel.h |
| `Buffer`, `Wire`, `Codec` | net/Buffer.h, net/Buffer.cc, net/protobuf/codec/codec.cc |
| `Http` | net/http/HttpContext.cc, net/http/HttpRequest.h |
| `EventLoop` | net/EventLoop.cc |
| `ConnectionModel`, `TcpConnection` | net/TcpConnection.cc |
| `TcpServer` | net/TcpServer.cc, net/TcpConnection.cc |
| `FixedBuffer`, `LoggingModel`, `AsyncLogging` | base/LogStream.h, base/AsyncLogging.cc |
| `LogStream` | base/LogStream.cc |
| `BoundedQueue` | base/BoundedBlockingQueue.h, base/ThreadPool.cc |
| `Calendar` | base/Date.cc, base/TimeZone.cc |

## What does not hold as one might expect

Where a plausible promise is false of the code, the code is kept, a lemma exhibits the failure, and the
condition under which the promise holds is proved.

- A cancellation that overtakes the `addTimerInLoop` of its timer is lost, from inside a callback as
  well (`CancelBeforeAddIsLost`); it is final exactly when that has run (`CancelIsFinalExactly`). A
  cancellation from inside a batch never stops a callback of that batch (`BatchIsCalledInFull`).
- `reset` does not re-arm the timerfd for an earliest expiration at or before the epoch
  (`RearmExactly`, `NonPositiveClockLosesTheDeadline`).
- `PollPoller` cuts the mask to 16 bits, so the two pollers agree exactly when no channel uses edge
  triggering (`SameUnlessEdgeTriggered`); a channel first registered without interest can not be
  removed (`PollRemoveAssertExactly`); a removed channel can not be registered again
  (`PollPoller.RemoveChannel`).
- After an HTTP error a further call trips the assertion in `setMethod` exactly when the rejected line
  starts with a known method (`AfterErrorAssertFailsExactly`).
- A `sendInLoop` posted by another thread writes after SHUT_WR exactly when it finds the half-close
  finished (`PostedSendExactly`, over runs `OrderlyExactlyInTime`). A `shutdown` on another thread
  breaks the order exactly when a write empties the buffer before its functor runs
  (`OffThreadShutdownExactly`, `OffThreadShutdownCount`, `OffThreadShutdownTwice`).
- `queueInLoop` on the loop thread outside `loop()` wakes nobody; it leads into a silent `poll` exactly
  when nobody else has written or is about to write to the eventfd (`QueueOutsideLoopExactly`, over
  runs `AnnouncedExactlyWhenCovered`).
- The erasure assertion of a close trigger holds exactly for the first trigger of a connection, at once
  on the base loop (`EraseAssertOnBaseLoop`) and when the posted removal runs for another loop
  (`EraseAssertAcrossLoops`).
- The logger silently drops a line exactly when it is not shorter than a buffer
  (`AppendKeepsLineExactly`).
- The day-number conversion overflows 32 bits exactly above 536838867 (`NoOverflowExactly`).

## Model

| member | source | states |
|---|---|---|
| TimerModel.HowMuchTimeFromNow | net/TimerQueue.cc:35-49 | seconds and nanoseconds together are the time to `when`, but at least 100 microseconds, with the nanoseconds below one second |
| TimerModel.ArmDeadline | net/TimerQueue.cc:63-76 | an armed timerfd fires at the expiration or 100 microseconds after the arming, whichever is later |
| TimerModel.StepKeepsInv | net/TimerQueue.cc:127-302 | every step keeps: both sets describe the same allocated timers, each timer has one owner, sequence numbers are unique and each is live or deleted once |
| TimerTheorems.SizesAgree | net/TimerQueue.cc:151-151 | the assertion `timers_.size() == activeTimers_.size()` |
| TimerTheorems.EveryRun | net/TimerQueue.cc:127-302 | in every run the sets agree at current expirations, every allocated timer has exactly one owner, every timer ever created is deleted once or still live, and outside a round nothing leaks |
| TimerTheorems.BatchIsExactlyTheDue | net/TimerQueue.cc:196-233 | `getExpired` removes from both sets exactly the timers due at `now`, in order |
| TimerTheorems.BatchIsCalledInFull | net/TimerQueue.cc:182-190 | whatever callbacks add or cancel, the callbacks made are those of the batch, in order |
| TimerTheorems.RoundOutcome | net/TimerQueue.cc:238-259 | at the end of a round each repeating uncancelled timer of the batch is queued one interval after the round's clock reading, cut to whole microseconds, with its interval and sequence number; the rest of the batch is deleted, no other timer changes |
| TimerTheorems.RoundReschedules | net/TimerQueue.cc:173-259 | over a whole round at `now`, whatever the callbacks do: a due timer is queued again with an expiration of `now` plus its interval if and only if the interval is positive and no step of the round cancels it; otherwise it is deleted |
| TimerTheorems.CreateOutcome | net/TimerQueue.cc:115-125 | the timer created has the given expiration and interval and the next sequence number, higher than all in use, and no other timer changes |
| TimerTheorems.ArmingOutcome | net/TimerQueue.cc:127-270 | which steps set the timerfd, and to what: an addition that becomes the earliest, and the end of a round for a positive earliest expiration |
| TimerTheorems.AddAndCancelOutcome | net/TimerQueue.cc:127-169 | adding queues its timer, cancelling deletes its queued timer, no other timer changes |
| TimerTheorems.CancelledNeverExpiresAgain | net/TimerQueue.cc:148-169 | a timer cancelled while queued or in flight enters no later batch of any run, repeating ones included |
| TimerTheorems.CancelBeforeAddIsLost | net/TimerQueue.cc:115-169 | a cancellation executed before the timer's own `addTimerInLoop`, between rounds or inside a callback, does not keep the timer out of the queue |
| TimerTheorems.CancelIsFinalExactly | net/TimerQueue.cc:115-169 | after a cancellation no run has a batch with that timer if and only if its `addTimerInLoop` had run |
| TimerTheorems.StaleCancelIsHarmless | net/TimerQueue.cc:148-169 | cancelling the id of a timer that is gone changes nothing about any live timer, even at the same address |
| TimerTheorems.AlwaysArmedInTime | net/TimerQueue.cc:127-138 | outside `handleRead`, a non-empty queue has the timerfd due by the earliest expiration or 100 microseconds after its arming, in every run whose rounds read a positive clock |
| TimerTheorems.RearmExactly | net/TimerQueue.cc:261-270 | the end of `reset` leaves the fd armed in time exactly when the earliest expiration is positive, the queue is empty, or it was armed in time already |
| TimerTheorems.NonPositiveClockLosesTheDeadline | net/TimerQueue.cc:261-270 | with a clock at or before the epoch a queued timer can be left with a disarmed fd |
| TimerQueues.CallbacksAreARun | net/TimerQueue.cc:182-190 | the callback loop with arbitrary scripts of creations, additions and cancellations is a run of the model |
| TimerQueues.TimerQueue.NewTimer | net/TimerQueue.cc:115-125 | allocates a timer with a fresh sequence number and returns the id that names it |
| TimerQueues.TimerQueue.InsertEntry | net/TimerQueue.cc:276-302 | inserts into both sets and reports whether the timer became the earliest; the size assertions before and after hold and both insertions succeed |
| TimerQueues.TimerQueue.AddTimerInLoop | net/TimerQueue.cc:127-138 | takes the model's transition: the timer is queued and the fd re-armed if it became the earliest |
| TimerQueues.TimerQueue.CancelInLoop | net/TimerQueue.cc:148-169 | takes the model's transition; both size assertions and the erasure assertion hold |
| TimerQueues.TimerQueue.EraseActive | net/TimerQueue.cc:225-230 | every erasure from `activeTimers_` finds its element and exactly the batch is erased |
| TimerQueues.TimerQueue.GetExpired | net/TimerQueue.cc:196-233 | returns the model's batch and leaves both sets without it; all its assertions hold |
| TimerQueues.TimerQueue.ResetEntry | net/TimerQueue.cc:246-258 | restarts and re-inserts, or deletes, one timer of the batch |
| TimerQueues.TimerQueue.Reset | net/TimerQueue.cc:238-271 | handles the whole batch and re-arms the fd for the earliest timer |
| TimerQueues.TimerQueue.HandleRead | net/TimerQueue.cc:173-193 | takes the model's transitions: batch, callbacks running any scripts, reset |
| PollerModel.PollUpdateHolds | net/poller/PollPoller.cc:85-121 | registering or changing a channel keeps indices and entries in bijection through the negative encoding and records the new mask |
| PollerModel.PollRemoveHolds | net/poller/PollPoller.cc:123-157 | swap-with-last removal keeps the bijection and removes exactly that descriptor |
| PollerModel.PollRemoveAssertExactly | net/poller/PollPoller.cc:131-136 | the assertion on the negated entry holds exactly when the channel was first registered with interest or updated since |
| PollerModel.EPollUpdateHolds | net/poller/EPollPoller.cc:112-155 | the kernel table holds exactly the added channels with their masks, and no ADD hits a present nor MOD or DEL an absent descriptor |
| PollerModel.EPollCalls | net/poller/EPollPoller.cc:112-155 | an added channel that loses its last interest is deleted from the kernel table, one that keeps some is modified, any other is added with its mask; no other descriptor is touched |
| PollerModel.EPollRemoveHolds | net/poller/EPollPoller.cc:157-176 | removal takes exactly that descriptor out of the poller and the kernel table without a failing call |
| PollerModel.BothPollersWatchTheInterest | net/Channel.h:57-67 | in every run of mask changes and removals both pollers watch the non-empty part of one and the same map (poll without edge triggering), and no `epoll_ctl` fails |
| PollerModel.SameUnlessEdgeTriggered | net/poller/PollPoller.cc:112-114 | the two watched maps are equal if and only if no registered mask has edge triggering on |
| PollerModel.FlagsAreBits | net/Channel.h:57-67 | the mask operations, `isNoneEvent`, `isWriting` and the cut to 16 bits do to the three flags what the source's bit operations do to POLLIN, POLLPRI, POLLOUT and EPOLLET |
| Pollers.PollPoller.UpdateChannel | net/poller/PollPoller.cc:85-121 | takes the model's transition, writes the index into the channel, and its assertions hold |
| Pollers.PollPoller.RemoveChannel | net/poller/PollPoller.cc:123-157 | takes the model's transition, moves the index of the last channel, keeps the removed channel's index so that it can not be registered again |
| Pollers.EPollPoller.UpdateChannel | net/poller/EPollPoller.cc:112-155 | takes the model's transition among the three index values, repeated `disableAll` included, with no failing `epoll_ctl` |
| Pollers.EPollPoller.RemoveChannel | net/poller/EPollPoller.cc:157-176 | takes the model's transition and leaves the channel new, ready to be registered again |
| Buffers.Buffer.constructor | net/Buffer.h:39-47 | an empty buffer with 8 bytes to prepend and 1024 to write |
| Buffers.Buffer.Retrieve | net/Buffer.h:106-110 | removes exactly the first `len` elements |
| Buffers.Buffer.RetrieveAsString | net/Buffer.h:113-118 | returns the whole contents and empties the buffer |
| Buffers.Buffer.MakeSpace | net/Buffer.h:232-253 | growing or sliding makes room and keeps the contents; the assertion on the sliding branch holds |
| Buffers.Buffer.EnsureWritableBytes | net/Buffer.h:121-128 | afterwards `len` elements can be written, contents unchanged |
| Buffers.Buffer.Append | net/Buffer.h:150-155 | the contents are extended by exactly the data |
| Buffers.Buffer.Prepend | net/Buffer.h:193-199 | the contents are preceded by exactly the data |
| Buffers.Buffer.ReadFd | net/Buffer.cc:28-50 | what the scatter read delivered is appended in order, also when it overflows into the extra area |
| Buffers.Drive | net/Buffer.h:106-199 | any sequence of operations acts on the buffer as on a plain queue, element for element; exactly the operations that fit the indices are carried out; without prepending, exactly those possible on the plain queue, and everything that arrives comes out in order or is still there |
| Buffers.AcceptedIsPossible | net/Buffer.h:106-253 | without prepending and with reads up to 64 KiB, growing and sliding never matter: all operations are carried out but retrievals of more than the queue holds |
| Buffers.Conserved | net/Buffer.h:106-155 | without prepending, what came out followed by what is left is what was there followed by what arrived |
| Wire.Int32RoundTrip | net/Buffer.h:62-67 | reading back a 32-bit integer written in network order gives that integer |
| Wire.NetworkOrder | net/Buffer.h:174-179 | a 32-bit integer is written most significant byte first, in two's complement |
| Wire.AdlerIsStandard | net/protobuf/codec/codec.cc:69-72 | the checksum is that of section 2.2 of RFC 1950: the low half one plus the sum of the bytes, the high half the sum of the running sums, both modulo 65521 |
| Wire.AdlerDetectsChange | net/protobuf/codec/codec.cc:69-72 | replacing any one byte changes the Adler-32 sum |
| Wire.AdlerDetectsSwap | net/protobuf/codec/codec.cc:69-72 | exchanging two adjacent unequal bytes changes the Adler-32 sum |
| Codec.FillEmptyBuffer | net/protobuf/codec/codec.cc:25-77 | an empty buffer ends up holding exactly the frame of the message |
| Codec.FrameLayout | net/protobuf/codec/codec.cc:25-77 | byte by byte: length of the rest, length of the name with its NUL, name, NUL, payload, and the Adler-32 sum of everything between the first and the last four bytes |
| Codec.ParseDecides | net/protobuf/codec/codec.cc:183-233 | each error code of `parse` and a delivered message occur exactly under their conditions, given by byte positions and the closed form of the checksum |
| Codec.FrontDecides | net/protobuf/codec/codec.cc:127-156 | when `onMessage` waits for more, reports an invalid length (below 10 or above 64 MiB), or hands the body to `parse` |
| Codec.ParseUndoesEncode | net/protobuf/codec/codec.cc:183-233 | parsing the body of an encoded message gives that message |
| Codec.NextMessage | net/protobuf/codec/codec.cc:131-155 | one round of the loop: consumes exactly one whole valid frame and delivers its message, or changes nothing and names the error |
| Codec.OnMessage | net/protobuf/codec/codec.cc:127-156 | delivers, leaves and reports exactly what draining the buffer contents gives |
| Codec.Receive | net/protobuf/codec/codec.cc:127-156 | calling `onMessage` after each appended chunk delivers and leaves what feeding the chunks gives |
| Codec.ChunksDoNotMatter | net/protobuf/codec/codec.cc:127-156 | on any input, how the stream is cut into chunks changes neither the messages nor the bytes left |
| Codec.StreamRoundTrip | net/protobuf/codec/codec.cc:25-156 | encoded messages followed by an incomplete frame, in any chunks, come out exactly and in order and leave only the incomplete frame |
| Codec.OnlyValidFramesConsumed | net/protobuf/codec/codec.cc:127-156 | on any input exactly a prefix of whole valid frames is consumed and the rest starts with none |
| Codec.ErrorIsFinal | net/protobuf/codec/codec.cc:134-151 | after an error, whatever arrives, nothing is delivered and the same error is reported again |
| Codec.ChangeIsDetected | net/protobuf/codec/codec.cc:187-230 | changing one byte of a body with a matching checksum, the checksum included, gives a checksum error |
| Codec.SwapIsDetected | net/protobuf/codec/codec.cc:187-230 | exchanging two adjacent unequal checksummed bytes gives a checksum error |
| Codec.EncodedDamageIsDetected | net/protobuf/codec/codec.cc:69-73 | every encoded body has a matching checksum, so both kinds of damage to it are reported |
| Http.FindCrlf | net/Buffer.h:75-80 | the position of the first CRLF, or the length exactly when there is none |
| Http.MethodRoundTrip | net/http/HttpRequest.h:53-111 | the name of each of the five methods is recognised as that method |
| Http.TrimIsRight | net/http/HttpRequest.h:138-149 | the header value loses exactly the white space at both ends |
| Http.TrimValue | net/http/HttpRequest.h:138-149 | the two trimming loops compute that value |
| Http.HeaderLineStored | net/http/HttpContext.cc:104-131 | for any header line the name before its first colon is mapped to the text behind it without white space at both ends, the other headers stay, and parsing goes on behind the line |
| Http.LineWithoutColonEnds | net/http/HttpContext.cc:104-131 | any line without a colon ends the request |
| Http.RequestLineDecides | net/http/HttpContext.cc:84-103 | a first line is accepted, yielding that request, exactly when it is the rendering of a well-formed one; otherwise an error is reported and nothing is consumed |
| Http.Spelling | net/http/HttpRequest.h:53-111 | the five method names, the two version strings and the white-space characters are those of the protocol, and no other |
| Http.HttpContext.SetMethod | net/http/HttpRequest.h:53-82 | sets the method and reports whether it is known; called only while none is set |
| Http.HttpContext.ProcessRequestLine | net/http/HttpContext.cc:24-70 | result and request, also when it fails half-way, are those of the line parser |
| Http.HttpContext.ParseRequest | net/http/HttpContext.cc:74-138 | terminates; result, state, request and left-over bytes are those of the parser function; the receive time is set exactly when the request line is completed; the precondition of the next call holds again unless there was an error |
| Http.HttpContext.Receive | net/http/HttpContext.cc:74-138 | feeding chunks one by one gives the outcome of parsing their concatenation |
| Http.ChunksDoNotMatter | net/http/HttpContext.cc:74-138 | any split of any bytes gives the result, state, request and left-over bytes of feeding them at once |
| Http.NoMethodBeforeRequestLine | net/http/HttpRequest.h:55-55 | until the first error the request line is expected only while no method is set, so the assertion in `setMethod` holds |
| Http.AfterErrorAssertFailsExactly | net/http/HttpRequest.h:55-55 | after an error a further call trips that assertion exactly when the rejected line starts with a known method and a space |
| Http.LineParses | net/http/HttpContext.cc:24-70 | the rendered request line of a well-formed request is accepted and gives back its fields |
| Http.AcceptedLineIsRendered | net/http/HttpContext.cc:24-70 | any accepted line is the rendering of the well-formed request it yields |
| Http.HeadersParse | net/http/HttpContext.cc:104-131 | rendered headers are added one by one and the empty line ends the request, leaving what follows |
| Http.RoundTrip | net/http/HttpContext.cc:24-138 | a rendered well-formed request with distinct headers, followed by any bytes and cut into any chunks, is recovered exactly and the following bytes stay |
| Http.GetHeaderFindsRendered | net/http/HttpRequest.h:138-163 | `getHeader` on the parsed request gives the value of every rendered header and the empty string for other names |
| EventLoops.FunctorsRunInOrder | net/EventLoop.cc:201-247 | in every interleaving those executed, the batch and the pending functors are exactly the functors queued by the steps, in order; back in `poll` everything queued before the last swap has run; the eventfd counts the wakeups since it was read |
| EventLoops.SelfWakeup | net/EventLoop.cc:232-247 | a call on the loop thread owes a wakeup exactly when made while functors are run, until it is written |
| EventLoops.NoLostWakeup | net/EventLoop.cc:232-247 | the loop never sits in `poll` with a queued functor and a zero eventfd unless a queuer is between its push and its wakeup, in every run whose queueing outside `loop()` is covered by another wakeup |
| EventLoops.InsideLoopIsCovered | net/EventLoop.cc:232-247 | runs whose loop-thread calls come from inside `loop()` are such runs |
| EventLoops.QueueOutsideLoopExactly | net/EventLoop.cc:232-247 | queueing on the loop thread outside `loop()` keeps functors announced if and only if the eventfd is positive or another queuer has yet to write; otherwise entering `loop()` ends in a silent `poll` |
| EventLoops.AnnouncedExactlyWhenCovered | net/EventLoop.cc:201-247 | the runs in which queued functors always stay announced are exactly those whose queueing outside `loop()` meets that condition |
| EventLoops.EventLoop.QueueInLoop | net/EventLoop.cc:232-247 | the functor is appended, and a wakeup is written exactly from another thread or while functors are being run |
| EventLoops.EventLoop.DoPendingFunctors | net/EventLoop.cc:201-218 | runs the swapped-out batch in order; what functors and other threads queue meanwhile stays for the next round, in order, each with a wakeup |
| ConnectionModel.WireIsPrefixOfSent | net/TcpConnection.cc:133-269 | in every run, on any threads, with any short writes and errors, bytes on the wire followed by the output buffer are, in order, the messages of the `send` calls that found the connection open and of the posted ones, both read off the steps; the connection state is the one the steps lead to |
| ConnectionModel.WrittenExactly | net/TcpConnection.cc:180-269 | what the kernel takes in each step, of a message only with nothing pending and else from the front of the buffer, appears on the wire and leaves the buffer |
| ConnectionModel.InterestAfter | net/TcpConnection.cc:86-130 | establishing switches reading on, closing and destroying switch all interest off |
| ConnectionModel.CompleteMeansFlushed | net/TcpConnection.cc:188-255 | the write-complete callback is queued exactly by a step that writes all of the buffer, or all of a message that finds nothing pending; then everything sent is on the wire |
| ConnectionModel.HalfCloseIsOrderly | net/TcpConnection.cc:133-269 | on the loop thread, before closing: write interest is on exactly while bytes are pending, SHUT_WR is issued once, exactly when half-closing and drained, and no byte follows it |
| ConnectionModel.AlarmMeansCrossing | net/TcpConnection.cc:211-224 | the high-water-mark callback is queued, with the new size, exactly when a step takes the output buffer from below the mark to the mark or above |
| ConnectionModel.PostedSendExactly | net/TcpConnection.cc:155-166 | a posted `sendInLoop` keeps the order if and only if the message is empty, the connection is still open or bytes are pending; otherwise what the kernel takes comes after SHUT_WR |
| ConnectionModel.OrderlyExactlyInTime | net/TcpConnection.cc:133-269 | with `send` on any thread, a run keeps the order throughout if and only if every posted message meets that condition |
| ConnectionModel.OffThreadShutdownExactly | net/TcpConnection.cc:133-153 | a `shutdown` on another thread keeps the order if and only if no write empties the buffer between its state change and its functor, whatever else runs in between |
| ConnectionModel.OffThreadShutdownCount | net/TcpConnection.cc:133-153 | with loop-thread steps in between, SHUT_WR has then been issued once if nothing was pending, twice if pending bytes were drained, and not yet otherwise |
| ConnectionModel.OffThreadShutdownTwice | net/TcpConnection.cc:133-153 | a write that takes all pending bytes in between does lead to two shutdowns |
| TcpConnections.TcpConnection.ConnectEstablished | net/TcpConnection.cc:106-115 | from connecting to connected, with read interest |
| TcpConnections.TcpConnection.SendInLoop | net/TcpConnection.cc:180-234 | takes the model's transition: direct write when idle, the rest buffered in order with write interest, with the write-complete and high-water-mark callbacks |
| TcpConnections.TcpConnection.Send | net/TcpConnection.cc:155-166 | when connected, wire and buffer together grow by exactly the message; otherwise nothing changes |
| TcpConnections.TcpConnection.Shutdown | net/TcpConnection.cc:133-153 | half-closes once, at once when nothing is pending |
| TcpConnections.TcpConnection.HandleWrite | net/TcpConnection.cc:236-269 | takes the model's transition: what was written leaves the buffer, and a drained buffer ends write interest and completes a pending half-close |
| TcpConnections.TcpConnection.HandleClose | net/TcpConnection.cc:86-97 | all interest is switched off and the state stays as it is |
| TcpConnections.TcpConnection.ConnectDestroyed | net/TcpConnection.cc:117-130 | disconnected, without interest |
| TcpServers.StepInv | net/TcpServer.cc:72-128 | every step of any loop keeps: the queues hold exactly the functors that connections wait for, each once, and map, poller and states fit the stage of each connection |
| TcpServers.EveryAssertHolds | net/TcpConnection.cc:86-130 | in every interleaving with one close trigger per connection the state assertions and the assertion that the erasure removes one entry hold when reached |
| TcpServers.LifeInOrder | net/TcpServer.cc:72-128 | in every interleaving with one close trigger per connection a connection is established, closed, erased and destroyed in this order, each once, destroyed in the functor phase of its own loop, and referenced while its channel is in the poller |
| TcpServers.EveryAcceptedIsServed | net/TcpServer.cc:72-128 | in every interleaving there is one connection for each accepted one, on its loop, closed or beyond exactly if it had its close trigger; once all queues are empty it is up and registered, or destroyed and out of map and poller |
| TcpServers.ShutdownOutcome | net/TcpConnection.cc:133-142 | `shutdown` takes exactly an open connection to disconnecting |
| TcpServers.LoopPhases | net/EventLoop.cc:201-218 | a loop enters its functor phase with all functors queued so far, runs them from the front and leaves it when none is left |
| TcpServers.EraseAssertOnBaseLoop | net/TcpServer.cc:79-86 | for a connection on the base loop the erasure assertion of a close trigger holds if and only if its channel is still reading |
| TcpServers.EraseAssertAcrossLoops | net/TcpServer.cc:72-86 | for another loop the posted removal is run after the functors queued before it, whatever happens meanwhile, and its erasure assertion holds if and only if the channel was still reading at the trigger |
| FixedBuffers.FixedBuffer.Append | base/LogStream.h:51-59 | appends all of the text if more than its length is available, otherwise nothing |
| FixedBuffers.FixedBuffer.Add | base/LogStream.h:66-66 | takes over what was written behind the current position |
| FixedBuffers.FixedBuffer.Reset | base/LogStream.h:68-68 | empties the buffer |
| LoggingModel.AppendKeepsLineExactly | base/AsyncLogging.cc:43-60 | appending keeps all earlier text and the line exactly when the line is shorter than a buffer, or empty |
| LoggingModel.EveryLineIsAccountedFor | base/AsyncLogging.cc:43-144 | in every interleaving, text written or dropped, the rest of the batch, the full buffers and the current buffer are, in order, all lines of the steps shorter than a buffer; buffers are dropped only after a notice about exactly that many, at least 24, and two written buffers, and every completed notice is followed by such a drop |
| LoggingModel.AppendOutcome | base/AsyncLogging.cc:43-60 | a line goes to the current buffer exactly if more than its length is free, otherwise that buffer is queued and the next or a new one takes the line |
| LoggingModel.CollectOutcome | base/AsyncLogging.cc:77-97 | the batch is all full buffers and the current one, which a spare replaces |
| LoggingModel.CutOutcome | base/AsyncLogging.cc:101-110 | a batch is cut to its first two buffers, with a notice, exactly when it has more than 25 |
| LoggingModel.SparesAtTop | base/AsyncLogging.cc:75-142 | at the loop top both spares are present, empty and distinct and no batch is left; a batch being written has at most 25 buffers; without a next buffer a full one is queued |
| AsyncLoggings.AsyncLogging.AppendLine | base/AsyncLogging.cc:43-60 | takes the model's transition: current, next or a newly allocated buffer |
| AsyncLoggings.AsyncLogging.CollectBatch | base/AsyncLogging.cc:77-97 | takes the model's transition; the assertions around the critical section hold |
| AsyncLoggings.AsyncLogging.CheckBatch | base/AsyncLogging.cc:101-110 | cuts an over-long batch to two buffers with a notice |
| AsyncLoggings.AsyncLogging.WriteOut | base/AsyncLogging.cc:113-117 | writes every buffer of the batch once, in order |
| AsyncLoggings.AsyncLogging.FinishRound | base/AsyncLogging.cc:119-143 | both spares are refilled from the batch and emptied; both assertions hold |
| AsyncLoggings.AsyncLogging.Round | base/AsyncLogging.cc:75-144 | one undisturbed round writes out or announces as dropped everything appended so far |
| LogStream.WriteDigits | base/LogStream.cc:52-62 | the digit loop writes the digits of the absolute value, least significant first, with truncating division and no negation |
| LogStream.Convert | base/LogStream.cc:51-72 | the text left in place is the decimal numeral of the value, terminated, without superfluous zeros, nothing else overwritten |
| LogStream.ConvertHex | base/LogStream.cc:74-90 | the same for the hexadecimal numeral |
| LogStream.DecimalUnique | base/LogStream.cc:51-72 | a number has only one decimal numeral of that form |
| LogStream.DecimalFits | base/LogStream.cc:245-253 | sign, digits and terminator of any integer of up to 64 bits take at most 21 characters |
| LogStream.HexFits | base/LogStream.cc:305-318 | digits and terminator of any 64-bit address take at most 17 characters |
| LogStream.FormatInteger | base/LogStream.cc:245-253 | appends the decimal numeral of any 32- or 64-bit integer, the most negative included, when 32 characters are free, otherwise nothing |
| LogStream.FormatPointer | base/LogStream.cc:305-318 | appends `0x` and the hexadecimal numeral of the address under the same condition |
| BoundedQueue.NeverLosesAWakeup | base/BoundedBlockingQueue.h:35-67 | in every interleaving with spurious wakeups the queue is FIFO and within its bound; a sleeping consumer means no more items than woken consumers, a sleeping producer no more free slots than woken producers |
| BoundedQueue.NothingIsLost | base/BoundedBlockingQueue.h:35-67 | in every interleaving what was taken followed by the queue are, in order, the items of the `put` calls, fresh or resumed, that found the queue running and not full, each item being that of its thread's last call; each `take` that found an item took the front one |
| BoundedQueue.WhoSleeps | base/ThreadPool.cc:58-124 | a producer sleeps exactly when it finds a running queue full, a consumer when it finds it empty; a call that goes through wakes one sleeper of the other kind, and `stop` wakes all |
| BoundedQueue.NotEverybodySleeps | base/BoundedBlockingQueue.h:35-67 | with a positive capacity, consumers and producers never all sleep with nobody woken |
| BoundedQueue.StopWakesEverybody | base/ThreadPool.cc:58-124 | after `stop` no thread sleeps ever again and no further task is accepted |
| Calendar.CivilDateIsRight | base/Date.cc:34-47 | every day number from -32044 on gives a valid Gregorian date whose day number it is |
| Calendar.DateRoundTrip | base/Date.cc:25-47 | every valid date of the era comes back from its day number |
| Calendar.JulianOrders | base/Date.cc:25-32 | day numbers order valid dates exactly as the calendar does |
| Calendar.NextDayNumber | base/Date.cc:34-47 | consecutive day numbers are consecutive Gregorian dates, leap years included |
| Calendar.NoOverflowExactly | base/Date.cc:34-47 | from day zero on, some 32-bit intermediate overflows exactly above 536838867, and below the conversion back does not overflow either |
| Calendar.EpochDay | base/Date.cc:49-49 | 1 January 1970 is day 2440588 |
| Calendar.FillHMS | base/TimeZone.cc:71-77 | hour, minute and second are in range and add up to the seconds of the day |
| Calendar.ToUtcTime | base/TimeZone.cc:317-343 | all fields are in range, also for negative times, `fromUtcTime` gives back the time, the weekday counts from Thursday, 1 January 1970, and the day of the year counts from 1 January |
| Calendar.UtcIsExact | base/TimeZone.cc:351-358 | the time made from valid fields has exactly these date and time-of-day parts |

## Left out

- Codec.Parse: a message whose payload does not parse is reported as an error only; the partly filled object the source also returns is not modelled, because its caller ignores it.
- Codec.FillEmptyBuffer: bodies of 2 GiB and more, whose 32-bit length fields would wrap, are excluded.
- TimerModel.AddTime: intervals are reals, so the rounding of `double` seconds to microseconds is not captured.
- Http.IsSpace: characters above 127, for which `isspace` on a plain `char` is undefined, count as no space.
- Calendar.ToUtcTime: times whose day number leaves the 32-bit range are excluded, as is the time zone string.
- TcpServer, BoundedBlockingQueue, ThreadPool and the cross-thread side of EventLoop are transition systems on values, one critical section or one functor per step, because a call of theirs spans several steps between which other threads run; mutexes, condition variables and aliasing of their fields are not objects here.
- The buffers of the asynchronous logger are values with an identity, because `unique_ptr` moves them and nothing shares them.
- Timers are records in a table of allocated addresses, so that deletion and reuse of an address can be expressed.
- Event masks are three flags (read, write, edge) instead of bit patterns; `fillActiveChannels` and the reported events of channels would only add easy members.
- System calls appear only by their results: `write` takes any number of bytes or fails, `readv` delivers any bytes, `epoll_ctl` acts on a table, `timerfd_settime` and `eventfd` calls succeed.
- Serialization is a parameter of the codec with the law that deserialization undoes it; protobuf itself is not part of this model.
- Lifecycle claims exclude `forceClose` and assume one close trigger per connection; what further ones do is stated by `EraseAssertOnBaseLoop` and `EraseAssertAcrossLoops`.
- Entering `parseRequest` in the states `kExpectBody` and `kGotAll`, where the source loops forever, is excluded by the precondition.
- `Buffer::shrink` moves the data without adjusting the indices and is not modelled.
- Local time zones, file rolling, floating-point output, sockets, acceptor, connector and client, and the HTTP server's timing wheel are not part of this model.
