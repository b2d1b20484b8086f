# Verified model of a bike server and its logging library

The model covers the concurrent core of the server (worker pool, connection sessions, request and
response hand-off, login codes) and the parts of its vendored log4cpp that carry real logic (pattern
layout, properties, category tree, appender ownership, filters, rolling files, syslog packets).
`dafny verify dfyconfig.toml` checks everything.

## What is modelled

**Worker pool.** `TaskQueue` is the intrusive list on the heap: `last` is the address of a slot, and
posting and dequeuing refine the abstract core of `PoolCore`. `ThreadPool` interleaves N workers, the
posting threads and the destroying thread at every statement that touches shared state, using the same
core. `PoolProperties` and `PoolShutdown` hold what every reachable state satisfies: the counter law, no
lost wake-up, FIFO and exactly once, the drained shutdown, that a pool always settles, and exactly when
a shutdown fails. The pthread calls succeed, wake-ups may be spurious, clients stop posting when the
destroyer starts.

**Sessions.** `Frame` gives a byte stream its meaning one byte at a time, and proves the decoder
independent of how the stream is cut, and the encoder's inverse; the format is also stated byte by byte.
`Session` is the connection object that reads in bulk into its buffers; its methods are proved to agree
with `Frame`. `Service` puts sessions, the pool's FIFO service, busy workers and the response queue into
one step system: clients disconnect or time out at any moment, the pool may reject a post, and a session
is known to the events in flight by its address alone, which a later connection may get. `ServiceTokens`
and `ServiceStream` hold what every step keeps, `ServiceRuns` says where its runs lead, `Server` runs it
jointly with the pool of `ThreadPool`, statement by statement, and `SessionRuns` joins the object to the
service's connection. Requests are parsed by an arbitrary predicate and answered by an arbitrary
relation. The host is little-endian. A failed protocol buffer parse leaves `parseEvent` without a return
statement; it is taken to return null, as the callers expect.

Two promises fail, and each has its exact condition.

- A response goes astray, into freed memory or to another client that got the address, exactly if an error
  callback freed a session there whose accepted request was still being answered (`AstrayExactly`), since
  the callback frees a session without looking at its state, and the response is written without looking
  at the session. `DisconnectStrays` and `AnotherIsAnswered` are two such runs; in the second a client that
  has sent nothing receives another client's answer. `ExactlyOneToken`, `EndToEnd` and
  `EveryRequestOnItsWay` hold for every connection at whose address nothing was in flight when it connected,
  whatever happens to others. Where no session was cut off while it waited, that is every connection
  (`CleanUnlessCutOff`); without it, the client is sent what it did not ask for (`TakenOverExactly`).
- A rejected post, whose result is ignored, leaves a session that waits for ever (`StuckForever`). It cannot
  happen while fewer requests are in flight than the pool's limit of 65535 (`EveryRequestOnItsWay`), nor, if
  nobody is cut off, while fewer sessions await a response (`EverySessionServed`).

**Login.** `Login` is the code table as an object, and any number of workers inside its two handlers at
once. The database's answers and the random codes are parameters.

**Pattern layout.** `PatternLayout` compiles a conversion pattern and proves the components equal to a
direct interpreter of the pattern text on every event. `PatternFields` says what the pieces mean,
`PatternLaws` what each letter prints, and what the server's own pattern does. Clock texts and
`strftime` are parameters of the event. Number reading follows C++11 streams. The property that `%c{n}`
prints trailing segments is false for names that begin with a dot when n exceeds the number of dots: the
backward scan wraps around. `CategoryTextIsLastSegments` states exactly when it holds, and
`LeadingDotWraps` is a concrete input on which it fails.

**String helpers and properties.** `StringUtil` has `trim` and `split`; the documented bound on the
number of segments fails exactly for a limit of 0. `Properties` loads through 255-character reads,
substitutes variables and saves; the iteration order of the saved map is arbitrary. `PropertyLaws` gives
the grammar of a line and says which line decides a key.

**Category tree.** `CategoryTree` is the tree by names, `Category` the heap objects that refine it, with
ownership of appenders (`Ownership`) and delivery through `Appender` and `Filter`. A deleted appender is
an identity: attaching it again starts a new attachment.

**Rolling files and syslog.** `RollingFile` works on a map of numbered files with distinct backup names
and succeeding writes and renames. `Syslog` cuts a message in the buffer, in place.

## Model

| member | source | states |
|---|---|---|
| TaskQueue.TaskPool.constructor | src/threadpool/thread_pool.h:29-31 | a new queue is empty, its tail slot is the pool's own field |
| TaskQueue.TaskPool.Post | src/threadpool/thread_pool.cc:130-165 | accepted exactly if the counter is below the limit; an accepted node is counted and appended, or, if it is queued already, the list is cut behind it; the list stays valid exactly unless the posted node was the last, which then links to itself |
| TaskQueue.TaskPool.CountSelf | src/threadpool/thread_pool.cc:181 | a worker takes one off the signed counter and leaves the list alone |
| TaskQueue.TaskPool.Dequeue | src/threadpool/thread_pool.cc:190-195 | the head of the sequence leaves, the representation stays valid also when the list becomes empty |
| ThreadPool.ExclusiveStep | src/threadpool/thread_pool.cc:176-199 | every step keeps mutual exclusion: exactly the worker named by the critical section is inside it |
| ThreadPool.CounterStep | src/threadpool/thread_pool.cc:135-195 | every step keeps: counter = queue length - sleepers - woken workers - the one just counted, and the bounds of the admission test |
| ThreadPool.WakeStep | src/threadpool/thread_pool.cc:148-188 | every step keeps: while someone sleeps, each queued item has a woken worker on its way, although the signal precedes the link |
| ThreadPool.AccountedStep | src/threadpool/thread_pool.cc:190-212 | an item is accounted for (in hand, running, freed, or a worker's end) once more exactly when it is dequeued |
| ThreadPool.ConservationStep | src/threadpool/thread_pool.cc:153-212 | every step keeps: dequeued followed by queued is the order of acceptance, every dequeued item is in exactly one place, the exit item is never freed |
| ThreadPool.PoolInvRun | src/threadpool/thread_pool.cc:130-216 | all pool invariants hold after any interleaving of any length |
| PoolProperties.CounterLawHolds | src/threadpool/thread_pool.cc:135-195 | in every reachable state with the mutex free the counter is queue length minus waiting workers; it stays in -threads..max_queue, and the queue within max_queue + threads |
| PoolProperties.PostOutcome | src/threadpool/thread_pool.cc:130-141 | in every reachable state with the mutex free a post, by client or destroyer, goes through exactly if the queue is shorter than the limit plus the workers waiting for a task, and is rejected otherwise |
| PoolProperties.NoLostWakeup | src/threadpool/thread_pool.cc:148-199 | in every reachable state a worker sleeps beside a non-empty queue only while each queued item has a worker under way to it, so queued items never meet only sleepers |
| PoolProperties.FifoExactlyOnce | src/threadpool/thread_pool.cc:153-212 | in every reachable state accepted = dequeued + queued in order, and the occurrences of an item are split between queue, workers and freed |
| PoolProperties.PoolRefinesFifo | src/threadpool/thread_pool.cc:130-216 | every statement of the pool is one step of a plain FIFO service or invisible to it |
| PoolShutdown.DestroyStep | src/threadpool/thread_pool.cc:70-107 | every step keeps the handshake: exit items posted and workers ended agree with the phase of the destroyer's loop and the flag |
| PoolShutdown.DestroyDrains | src/threadpool/thread_pool.cc:70-107 | when the destroyer returns past its loop nothing is queued, every accepted client item was run and freed as often as accepted, each worker ended on one exit item, the exit item was never freed, and the mutex is free |
| PoolShutdown.ExitTaskFreeToReuse | src/threadpool/thread_pool.cc:80-92 | the reused stack-allocated exit item is never linked while it is queued or running |
| PoolShutdown.SystemRunsEnd | src/threadpool/thread_pool.cc:167-216 | without new client posts, spurious wake-ups or a new shutdown a schedule is no longer than a measure of the state |
| PoolShutdown.Progress | src/threadpool/thread_pool.cc:70-216 | deadlock freedom: a state that is not quiet has an enabled step of the program |
| PoolShutdown.PoolSettles | src/threadpool/thread_pool.cc:70-216 | from every reachable state the pool reaches a quiet state by its own steps; every quiet state has served all that was accepted and ends a started shutdown, with a return unless its first post found no room: the spin loop never hangs |
| PoolShutdown.ExitPostOutcome | src/threadpool/thread_pool.cc:80-85 | the destroyer's post is rejected exactly if it is the first and the counter is at the limit; later ones find an empty queue |
| PoolShutdown.ShutdownReturns | src/threadpool/thread_pool.cc:70-97 | a shutdown that starts with fewer tasks queued or being linked than the limit never fails: under every schedule a quiet pool has returned, and the program can get there |
| PoolShutdown.ShutdownFailsExactly | src/threadpool/thread_pool.cc:80-85 | over all runs a shutdown has failed exactly if at some moment its first post found no room |
| Frame.ValueOfLittleEndian | src/DispatchMsgService.cc:206-208 | a number written to the header reads back |
| Frame.LittleEndianOfValue | src/NetworkInterface.cc:130-131 | header bytes read as a number write back as themselves |
| Frame.HeaderBytes | src/NetworkInterface.cc:127-138 | the ten header bytes in numbers: the four magic bytes, id and length with the least significant byte first, and when they are accepted |
| Frame.FrameBytes | src/DispatchMsgService.cc:205-211 | the bytes of a frame in numbers |
| Frame.FeedSplit | src/NetworkInterface.cc:121-174 | decoding a stream in two parts is decoding it whole, unread rest included |
| Frame.ChunkingIrrelevant | src/NetworkInterface.cc:121-174 | state, decision, decoded request and unread rest depend only on the concatenation of the chunks |
| Frame.DecodeEncoded | src/DispatchMsgService.cc:195-211 | decoding an encoded frame yields its id and payload and leaves what follows unread |
| Frame.AcceptsExactlyFrames | src/NetworkInterface.cc:127-177 | a request is accepted from a stream exactly if the stream begins with its frame, said byte by byte, its length is in 1..367280 and it parses |
| Frame.RejectsExactly | src/NetworkInterface.cc:128-186 | a connection is closed exactly on wrong magic bytes, a length outside 1..367280, or a complete frame that does not parse, said byte by byte |
| Session.ConnectSession.constructor | src/NetworkInterface.cc:100-104 | a new session is at the start of a header |
| Session.ConnectSession.HandleRequest | src/NetworkInterface.cc:114-189 | the bulk-reading callback ends where byte-by-byte decoding of the unread input ends, and dispatches, waits or closes accordingly; header and payload counts stay in bounds |
| Session.ConnectSession.ReadHeaderBytes | src/NetworkInterface.cc:121-157 | the header part leaves the meaning of the unread input unchanged |
| Session.ConnectSession.DecodeHeader | src/NetworkInterface.cc:127-156 | a complete header moves the session to its payload or closes it, as the format says |
| Session.ConnectSession.ReadMessageBytes | src/NetworkInterface.cc:158-188 | the payload part agrees with byte-by-byte decoding |
| Session.ConnectSession.Reset | src/NetworkInterface.cc:28-44 | the session is at the start of a header again, with no buffers |
| Session.ConnectSession.AssembleResponse | src/DispatchMsgService.cc:195-211 | in any state of the session the write buffer is exactly the frame of the response, byte by byte, and the message length is the response's |
| Session.ConnectSession.SendResponse | src/NetworkInterface.cc:221-233 | with a response the whole write buffer goes out and the session is reset; without one the session is freed and nothing is written |
| Session.ConnectSession.Respond | src/DispatchMsgService.cc:195-214 | in any state of the session a response goes out as one frame and the session starts over; a partly read frame is dropped, the unread input kept |
| Service.UsesPoolAsFifo | src/DispatchMsgService.cc:61-94 | every event does to the pool the one FIFO step its observation names, or nothing |
| Service.FrameIsDispatched | src/DispatchMsgService.cc:139-161 | a whole frame, in bytes, is posted under the session's address exactly if its id is 1 or 3 and its payload is accepted, and closes the connection otherwise; the rest stays unread |
| Service.AnswerIsQueued | src/DispatchMsgService.cc:71-94 | a handler's answer is queued behind the others, with id 2 for a request with id 1 and id 4 for one with id 3 |
| Service.ResponseIsWritten | src/DispatchMsgService.cc:163-214 | the head of the response queue goes out in bytes to the session at its address, which starts over |
| ServiceTokens.TokenStep | src/DispatchMsgService.cc:61-94 | every event, disconnections, reused addresses and rejected posts included, keeps: every session awaiting a response has a token, and one at whose address nothing was in flight when it connected has no other |
| ServiceStream.ExactlyOneToken | src/NetworkInterface.cc:168-177 | after any run a live session that connected with nothing in flight at its address has an event in pool queue, workers and response queue exactly if it is in SS_RESPONSE on an accepted post, exactly one, and its own |
| ServiceStream.StreamStep | src/DispatchMsgService.cc:163-214 | every event keeps the bytes of each such connection equal to its history of requests and replies |
| ServiceStream.EndToEnd | src/NetworkInterface.cc:114-233 | after any run a live connection that connected with nothing in flight at its address received the frames of its complete requests plus an unfinished rest and was sent exactly one reply frame per answered request, in order; requests have id 1 or 3 and are answered by their handler's payload under id 2 or 4 |
| ServiceStream.ResponsesInOrder | src/DispatchMsgService.cc:86-190 | over any run the responses given, in order, are those sent and those still queued |
| ServiceRuns.WorkStep | src/DispatchMsgService.cc:71-94 | each step of a worker or of the drain loop is one off a measure of the state |
| ServiceRuns.AllAnswered | src/DispatchMsgService.cc:71-214 | from every reachable state workers and drain loop by themselves, in any order and in exactly that many steps, leave no session waiting but those whose post was rejected |
| ServiceRuns.DoomedStep | src/NetworkInterface.cc:196-212 | an event in flight loses its session, or a response goes astray at an address, exactly by an error callback on a session awaiting a response there |
| ServiceRuns.AstrayExactly | src/NetworkInterface.cc:196-233 | over all runs and for every address a response goes astray, at the latest once the work is done, exactly if some error callback hit a session there that awaited the response to an accepted request |
| ServiceRuns.CleanUnlessCutOff | src/NetworkInterface.cc:196-212 | without such a callback at its address every live session connected with nothing in flight there |
| ServiceRuns.TakenOverExactly | src/NetworkInterface.cc:92-108 | a client that connects and sends nothing is sent something, once the work is done, exactly if something was in flight at its address when it connected |
| ServiceRuns.StrayReply | src/NetworkInterface.cc:221-233 | a stray response is written to whoever has the address and resets that session; a response it awaits itself stays in flight |
| ServiceRuns.DisconnectStrays | src/NetworkInterface.cc:196-212 | one client, one request, cut off before the answer: the answer is written to the freed session |
| ServiceRuns.AnotherIsAnswered | src/NetworkInterface.cc:196-233 | the same, but another client gets the address first: it has sent nothing and is sent the answer |
| ServiceRuns.RejectedSticks | src/NetworkInterface.cc:168-177 | a rejected post leaves a session in SS_RESPONSE without an event anywhere |
| ServiceRuns.StuckForever | src/NetworkInterface.cc:114-120 | whatever follows, such a connection reads no further request and is sent no reply |
| Server.FitsStep | src/DispatchMsgService.cc:61-94 | every joint move keeps the pool, seen as a FIFO service, equal to the service's pool |
| Server.JointStep | src/threadpool/thread_pool.cc:130-216 | every joint move keeps the invariants of both systems and the pending post |
| Server.RunsOfBoth | src/DispatchMsgService.cc:61-94 | a joint run is a run of the service and a run of the pool, so what holds of either holds of the whole |
| Server.TakeNotBlocked | src/threadpool/thread_pool.cc:190-195 | a worker that can dequeue finds the service ready to begin that request |
| Server.FinishNotBlocked | src/threadpool/thread_pool.cc:205-212 | a worker whose handler has returned finds the service ready to end that request |
| Server.DispatchNotBlocked | src/threadpool/thread_pool.cc:148-154 | between signal and link the posting session does not change, so the link always hands over its request |
| Server.PostNotBlocked | src/NetworkInterface.cc:168-177 | a session with a complete request can post it whenever the mutex is free, and is rejected exactly if the queue is as long as the limit and the idle workers together |
| Server.AdmissionHolds | src/threadpool/thread_pool.cc:135-141 | while fewer requests are in flight than the pool's limit, the admission test passes |
| Server.EveryRequestOnItsWay | src/NetworkInterface.cc:168-177 | in such runs no post is rejected, and a session that connected with nothing in flight at its address awaits a response exactly if it has its one token |
| Server.LoadIsWaiting | src/DispatchMsgService.cc:61-94 | if nobody was cut off while waiting, no more requests are in flight than live sessions await a response |
| Server.EverySessionServed | src/NetworkInterface.cc:168-177 | while fewer sessions await a response than the limit and none of them is cut off, no post is rejected and every live session awaits a response exactly if it has its one token |
| SessionRuns.Converse | src/NetworkInterface.cc:114-189 | a session object taking any sequence of arrivals, read callbacks and responses stays, in state, unread input and output, what the service's connection becomes |
| SessionRuns.ServiceTurns | src/DispatchMsgService.cc:163-214 | in any run of the service, what a connection that lives through it becomes is such a sequence |
| Login.UserEventHandler.HandleMobileCodeReq | src/user_event_handler.cc:64-81 | the new code becomes the latest stored one and is returned |
| Login.UserEventHandler.HandleLoginReq | src/user_event_handler.cc:90-131 | 404 exactly if the code is not the latest stored one; otherwise 200 if the database is there and knows the user or enters him, else 406 |
| Login.LatestLaw | src/user_event_handler.cc:73-75 | a code is the latest exactly if it was stored for the number and nothing was stored for it after that |
| Login.InvStep | src/user_event_handler.cc:73-104 | every interleaved step keeps table = latest stores, one lock holder, and checks that match the log at their moment |
| Login.LoginSafety | src/user_event_handler.cc:90-131 | over all interleavings a login is answered 404, without asking the database, exactly if its code was not the latest stored at the locked check, and otherwise 200 or 406 as the database answers |
| Login.LockReleased | src/user_event_handler.cc:74-104 | the lock has one holder, who releases it within two steps of its own, on every path |
| PatternLayout.PatternLayout.constructor | git/log4cpp/src/PatternLayout.cpp:259-264 | a new layout prints as the default pattern says |
| PatternLayout.PatternLayout.SetConversionPattern | git/log4cpp/src/PatternLayout.cpp:279-391 | an accepted pattern's components print, for every event, what interpreting the pattern prints; a rejected one is rejected by the interpreter with the same error; no literal is empty or follows another |
| PatternLayout.PatternLayout.ReadConversion | git/log4cpp/src/PatternLayout.cpp:293-383 | handling one specifier keeps compiled part, open literal and rest equal to the interpretation |
| PatternLayout.PatternLayout.PushField | git/log4cpp/src/PatternLayout.cpp:370-381 | a field closes the open literal, takes the pending widths, and keeps literals apart |
| PatternLayout.PatternLayout.Format | git/log4cpp/src/PatternLayout.cpp:397-406 | the components' texts in order |
| PatternLayout.AgreesField | git/log4cpp/src/PatternLayout.cpp:370-381 | pushing a field keeps the agreement with the interpreter for every event and resets the widths |
| PatternFields.AppendCategoryName | git/log4cpp/src/PatternLayout.cpp:78-96 | the loop prints from where the backward scan ends |
| PatternFields.CategoryTextIsLastSegments | git/log4cpp/src/PatternLayout.cpp:78-96 | %c{n} prints the last n dot-separated segments exactly if not (the name begins with a dot and n exceeds its dots) |
| PatternFields.LeadingDotWraps | git/log4cpp/src/PatternLayout.cpp:83-89 | on ".a" with n = 2 only "a" is printed |
| PatternFields.SegmentStartLaw | git/log4cpp/src/PatternLayout.cpp:83-89 | what stands behind the n-th dot from the end is the join of the last n pieces of the split |
| PatternFields.FitLaw | git/log4cpp/src/PatternLayout.cpp:228-245 | character by character: cut to the maximum, padded with spaces to the minimum on the side away from the alignment |
| PatternFields.ReadsBack | git/log4cpp/src/PatternLayout.cpp:293-326 | the text of a specifier reads as the widths, letter and postfix it is made of, in any context |
| PatternLaws.LettersPrint | git/log4cpp/src/PatternLayout.cpp:327-381 | for every event, in any pattern and with any widths: the text each of the letters m, t, x, r, R, u, p and bare c prints |
| PatternLaws.TimePrints | git/log4cpp/src/PatternLayout.cpp:137-144 | %d with its three named formats, and any other postfix as the format |
| PatternLaws.CategoryPrints | git/log4cpp/src/PatternLayout.cpp:64-96 | %c{n} with n in digits prints the last n segments of the category name, all of it for 0 |
| PatternLaws.CategoryPrintsWhole | git/log4cpp/src/PatternLayout.cpp:64-96 | %c with a negative or no number prints the whole name |
| PatternLaws.LiteralsPrint | git/log4cpp/src/PatternLayout.cpp:328-340 | %% and %n print themselves and leave the widths pending |
| PatternLaws.TextPrints | git/log4cpp/src/PatternLayout.cpp:382-384 | text without % prints itself and leaves the widths pending |
| PatternLaws.OthersStop | git/log4cpp/src/PatternLayout.cpp:365-369 | every other letter is refused as unknown |
| PatternLaws.UnterminatedStops | git/log4cpp/src/PatternLayout.cpp:295-313 | a specifier that ends before its letter, or has no digits where a width should be, is refused as unterminated |
| PatternLaws.ServerPatternPrints | conf/log.conf:9 | what the server's own pattern prints of every event |
| PatternLaws.ServerLog | conf/log.conf:9 | a layout accepts the server's pattern and prints that of every event |
| StringUtil.TrimLaw | git/log4cpp/src/StringUtil.cpp:71-88 | trimming is the one way to take blanks, tabs, carriage returns and newlines off both ends so that none is left |
| StringUtil.Split | git/log4cpp/src/StringUtil.hh:63-79 | the scanner writes the first limit - 1 segments and the rest, and returns their number |
| StringUtil.SplitLossless | git/log4cpp/src/StringUtil.hh:63-79 | joining the pieces restores the text |
| StringUtil.SplitPieces | git/log4cpp/src/StringUtil.hh:63-79 | only the last piece may contain a delimiter |
| StringUtil.SplitCount | git/log4cpp/src/StringUtil.hh:63-79 | the number of pieces is min(limit, delimiters + 1), a limit of 0 counting as 1 |
| StringUtil.SplitBound | git/log4cpp/src/StringUtil.hh:45-79 | the documented maximum is kept exactly if it is not 0 |
| Properties.Properties.Load | git/log4cpp/src/Properties.cpp:21-87 | the read loop over partial reads yields what processing the logical lines in order yields |
| Properties.Properties.ReadLine | git/log4cpp/src/Properties.cpp:47-86 | one line's effect: comment, missing '=', trimming, substitution, prefix, first key wins |
| Properties.Properties.Save | git/log4cpp/src/Properties.cpp:89-93 | one line per entry, in the order of iteration |
| Properties.PendingStep | git/log4cpp/src/Properties.cpp:31-45 | each getline call, full buffer, newline or end of input, moves the loop on without changing what it will load |
| Properties.PiecedIsLine | git/log4cpp/src/Properties.cpp:31-45 | reassembling 255-character pieces gives the line, of any length |
| Properties.NulHidesPiece | git/log4cpp/src/Properties.cpp:26-39 | a NUL hides what follows it in its 255-character piece, and nothing else |
| Properties.Scan | git/log4cpp/src/Properties.cpp:111-157 | the scanner terminates and equals leftmost-first recursive substitution |
| Properties.SubstituteFirst | git/log4cpp/src/Properties.cpp:127-155 | the first closed reference is replaced once by what its name stands for, and the text behind it is treated alike |
| Properties.SubstituteIdentity | git/log4cpp/src/Properties.cpp:114-135 | text without a closed reference is unchanged |
| Properties.SaveLoadRoundTrip | git/log4cpp/src/Properties.cpp:21-93 | loading what was saved gives the map back, in any order of iteration and any environment |
| Properties.StripLaw | git/log4cpp/src/Properties.cpp:77-82 | a leading log4cpp. or log4j. is taken off a key, any other key keeps its name |
| PropertyLaws.AssignmentLaw | git/log4cpp/src/Properties.cpp:47-82 | a line assigns a value to a name exactly if it can be taken apart so: white space, key, first =, value, comment from the first # |
| PropertyLaws.ReferenceMeans | git/log4cpp/src/Properties.cpp:132-152 | a reference stands for the environment's value, else for the earlier entry, else for nothing; ${${} for an opening |
| PropertyLaws.FirstLineWins | git/log4cpp/src/Properties.cpp:21-87 | a file's entries are exactly the names that some line assigns, each with the value of the first line that does |
| CategoryTree.AncestryLaw | git/log4cpp/src/HierarchyMaintainer.cpp:69-75 | going from parent name to parent name visits exactly the name, its cuts at dots and the root |
| CategoryTree.OpenedLaw | git/log4cpp/src/HierarchyMaintainer.cpp:61-82 | asking for a category makes exactly its ancestry known, changes no known priority, keeps the tree closed |
| CategoryTree.EffectiveLaw | git/log4cpp/src/Category.cpp:88-97 | the effective priority is that of the first category in the ancestry that has one |
| CategoryTree.GrownRun | git/log4cpp/src/HierarchyMaintainer.cpp:61-82 | after any run of lookups and assignments the names are closed under dotted prefixes, the root has a priority, every effective priority is below NOTSET |
| CategoryTree.AssignmentReach | git/log4cpp/src/Category.cpp:77-97 | setting or clearing a priority decides the effective priority of exactly the categories with no set priority on the way up to it: the new one, or that of the assigned category's parent |
| CategoryTree.RootKeepsOne | git/log4cpp/src/Category.cpp:77-86 | clearing the root's priority changes nothing |
| Category.Category.SetPriority | git/log4cpp/src/Category.cpp:77-86 | refused exactly if it would leave the root without a priority |
| Category.Category.GetChainedPriority | git/log4cpp/src/Category.cpp:88-97 | the climbing loop terminates with the nearest set priority |
| Category.ChainedIsEffective | git/log4cpp/src/Category.cpp:88-97 | in a valid tree climbing gives the effective priority of the category's name |
| Category.HierarchyMaintainer.GetInstance | git/log4cpp/src/HierarchyMaintainer.cpp:61-82 | the tree stays valid, existing categories stay as they are, the missing ancestors are created with the right parents and priorities |
| Category.Perform | git/log4cpp/src/HierarchyMaintainer.cpp:56-82 | any sequence of lookups and priority changes on the heap is the run on names, and keeps the tree valid |
| Category.PriorityAfter | git/log4cpp/src/Category.cpp:88-97 | after any calls, climbing from any category asked for terminates with the effective priority of its name |
| Category.VisitsAncestry | git/log4cpp/src/Category.cpp:224-237 | the visited categories are named by the beginning of the ancestry, up to and including the first that is not additive |
| Category.AttachAndDetach | git/log4cpp/src/Category.cpp:99-187 | any sequence of appender operations on a category is the run on values, with its deletions |
| Category.Category.AddAppender | git/log4cpp/src/Category.cpp:99-112 | attaches and takes ownership unless attached already; null is refused |
| Category.Category.AddAppenderReference | git/log4cpp/src/Category.cpp:114-123 | attaches without ownership unless attached already |
| Category.Category.RemoveAppender | git/log4cpp/src/Category.cpp:172-187 | detaches, and deletes exactly an owned appender |
| Category.Category.RemoveAllAppenders | git/log4cpp/src/Category.cpp:155-170 | detaches all and deletes exactly the owned ones |
| Ownership.OwnershipStep | git/log4cpp/src/Category.cpp:99-222 | every operation keeps the set and table invariants, does to the attachment modes what a plain map does, and deletes exactly what was attached by pointer and is detached |
| Ownership.OwnershipRun | git/log4cpp/src/Category.cpp:99-187 | over any run deletions plus owned appenders equal attachments by pointer |
| Ownership.AttachmentDeletesOnce | git/log4cpp/src/Category.cpp:99-187 | an attachment deletes its appender once if its first insertion was by pointer, never if by reference |
| Category.Category.CallAppenders | git/log4cpp/src/Category.cpp:224-237 | every appender that admits the event emits it once per visited category it is attached to, others not at all |
| Category.VisitedLaw | git/log4cpp/src/Category.cpp:224-237 | the visited categories are the lineage up to and including the first that is not additive |
| Category.Category.Log | git/log4cpp/src/Category.cpp:267-286 | an event is delivered exactly if its priority is enabled |
| Appender.Appender.DoAppend | git/log4cpp/src/AppenderSkeleton.cpp:30-36 | emits exactly if the threshold is NOTSET or admits the event and the filters do not deny it |
| Appender.AdmitsExactly | git/log4cpp/src/AppenderSkeleton.cpp:30-36 | an event passes exactly if the threshold is 800 or not below its priority and no filter denies it before another accepts it |
| Filter.Filter.Decide | git/log4cpp/src/Filter.cpp:50-58 | the recursion gives the first decision of the chain |
| Filter.FirstDecisionLaw | git/log4cpp/src/Filter.cpp:50-58 | the first non-neutral verdict decides, neutral if there is none |
| Filter.Filter.AppendChainedFilter | git/log4cpp/src/Filter.cpp:37-48 | the result is the old chain followed by the appended one exactly if they share no filter; otherwise no chain that ends starts here |
| Filter.AppendedDecides | git/log4cpp/src/Filter.cpp:45-58 | an appended chain decides exactly what the chain before leaves neutral |
| RollingFile.RollingFileAppender.RollOver | git/log4cpp/src/RollingFileAppender.cpp:61-82 | the rename chain moves every file up by one, drops the last backup, and reopens an empty log |
| RollingFile.RollingFileAppender.Append | git/log4cpp/src/RollingFileAppender.cpp:84-94 | writes the message, then rolls exactly if the size has reached the limit |
| RollingFile.RolledLaw | git/log4cpp/src/RollingFileAppender.cpp:61-82 | file by file: each moves up one number if it is there, the log begins anew, files beyond the backups stay |
| RollingFile.RotationLosesOldest | git/log4cpp/src/RollingFileAppender.cpp:61-82 | a rotation loses exactly the oldest backup of the history |
| RollingFile.HistoryIsSuffix | git/log4cpp/src/RollingFileAppender.cpp:61-94 | over any run lost text followed by backups and log is the initial content followed by everything logged |
| RollingFile.BackupsAreRotations | git/log4cpp/src/RollingFileAppender.cpp:61-82 | backup i is the i-th last rotated file |
| RollingFile.RotatedFull | git/log4cpp/src/RollingFileAppender.cpp:84-94 | every rotated file has reached the limit |
| RollingFile.RotatedFileSizes | git/log4cpp/src/RollingFileAppender.cpp:61-94 | a log that began below the limit stays below it exactly if rotations empty it (some backup, or truncation) or there was none; rotated files exceed the limit by less than their last message exactly if rotations empty the log or there was at most one |
| RollingFile.LogEach | git/log4cpp/src/RollingFileAppender.cpp:84-94 | logging message after message leaves the disk that the run on values has |
| Priority.LevelMonotone | git/log4cpp/src/Priority.cpp:37-42 | more urgent priorities have lower levels, with division towards zero |
| Priority.NameLaw | git/log4cpp/src/Priority.cpp:37-42 | the nine names and exactly the priorities that have them |
| Syslog.SeverityLaw | git/log4cpp/src/RemoteSyslogAppender.cpp:36-54 | the eight severities, in order of priority, with the interval of priorities each has |
| Syslog.PreambleReads | git/log4cpp/src/RemoteSyslogAppender.cpp:145-146 | the preamble's number, without leading zeros, reads back as facility plus severity, and both can be told from it |
| Syslog.SendLoop | git/log4cpp/src/RemoteSyslogAppender.cpp:155-171 | the in-place loop terminates, stays inside the buffer, and sends the packets of the message |
| Syslog.ShiftOut | git/log4cpp/src/RemoteSyslogAppender.cpp:158-161 | a full packet is preamble and message text, and the rest moves up behind the preamble |
| Syslog.Append | git/log4cpp/src/RemoteSyslogAppender.cpp:141-167 | the preamble fits the slack of the buffer and the packets are those of the message |
| Syslog.SplitLossless | git/log4cpp/src/RemoteSyslogAppender.cpp:155-171 | the packets' payloads concatenate to the message |
| Syslog.SplitBounded | git/log4cpp/src/RemoteSyslogAppender.cpp:155-171 | every packet begins with the preamble, carries something and has at most 900 bytes, all but the last exactly 900 |
| Syslog.SplitCount | git/log4cpp/src/RemoteSyslogAppender.cpp:155-171 | the number of packets is the message length over the room per packet, rounded up |
| Decimal.NumeralBound | git/log4cpp/src/RemoteSyslogAppender.cpp:145-146 | a 32-bit number prints in at most eleven characters, so the preamble fits |
| Decimal.DecimalPlaces | git/log4cpp/src/PatternLayout.cpp:298-304 | digits read from left to right, each multiplying by ten what stands before it |

## Left out

- libevent, sockets, timers, MySQL, `iniparser`, logging calls and `main`: input/output and libraries. A buffered read takes the smaller of what is there and what is asked for.
- Protocol buffer contents: an abstract predicate says which payloads parse and an abstract relation which replies a handler may give.
- A closing service: the pool is not destroyed while sessions are served.
- What a write to a freed session does where no other session has the address: the model records it and lets the rest go on.
- `ExitRspEv`: no event whose request parses is without a handler, so no worker produces it; the bytes written for it are not modelled.
- When leftover bytes of a session are looked at again: the read callback is a step of the environment.
- pthread failures and the C++ memory model of the shutdown flag.
- PoolShutdown.DestroyDrains: states the drained shutdown for pools with at least one thread; the initialiser always starts four.
- PatternLayout.PatternLayout.SetConversionPattern: a `%c{...}` postfix of white space only is not modelled; the stream then stores nothing and the precision stays uninitialised, where the model reads 0.
- Widths beyond an `int` are rejected as the stream rejects them; a width of exactly the smallest `int`, whose absolute value C++ leaves undefined, is not modelled.
- strftime, milliseconds, and the clocks: their texts are part of the event.
- The deletion of a filter chain that another replaces.
- Appenders shared by two categories that both own them would be deleted twice; ownership is stated for one category.
- Locks of categories and of the maintainer: each operation runs alone.
- Changing `maxBackupIndex` or the size limit between messages.
- `getInt`, `getBool`, `getString`, `vform`, factories, configurators, other appenders and layouts, shutdown handlers: easy, or operating-system effects.
- `snprintf.c` and the non-lossy buffering appender: the properties one would want do not follow from their code.
