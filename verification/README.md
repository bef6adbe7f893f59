# A verified model of the asynchronous PostgreSQL client

The client is a set of tasks on top of an event-driven framework. This project
models its logic in Dafny and proves what users and callers rely on. Three
machines carry most of it.

**The reconnect guard of fixed connections.** A fixed connection is a route that
survives the loss of its socket. `Session` gives the decisions of one task as
functions on values: which message goes out, whether a request may continue on a
new session, what an outcome does to the connection, the route and the user's
handle. `Task` gives the same decisions in the form the task has, objects whose
fields are updated in place, each method proved against those functions. `Runs`
puts them into a transition system: tasks begin, sockets open, messages go out,
answers and failures arrive, sockets are lost. `Journal` is the log of what was
sent where and what came of it. `Continuity` proves, in terms of that log, what
holds over every run; `Reconnecting` proves exactly when SQL may go out on a new
session, and how a route is recovered.

**The receive path.** `Wire`, `Framing` and `Parser` read bytes, frames and
payloads. `Response` is the machine that takes bytes in arbitrary chunks, and
`Receiving` proves that the chunks do not matter, that every byte is accounted
for, and that what is left in the buffer is exactly the frames that were handled.
`Backend` is the other side: every message a server can send, with its letter and
layout written out, and the proof that a response hears what was said, in whatever
chunks.

**The result cursor.** `Cursor` scans the buffer again, lazily, stepping back over
frames where it must. `Moving` proves where its moves lead, whatever was fetched in
between. `Reading` proves that it yields what one pass over the frame list yields,
and when it does not show COPY rows. `CopyOut` and `Delivery` join the two halves: a
finished response read through the cursor and through the COPY getters, and result
sets on their way from a server that writes them to the caller who gets them back.

Beside them: `Request` (encoding, and what a server reads out of it), `Scram`
(the authentication exchange over abstract cryptography), `Literals` (array and
binary text), `Instants` (timestamps), `Tags` (command tags), `Numbers` (decimal
text).

## Assumptions

- Requests on one fixed route are served one at a time, every task of the route
  carries the same handle, and a new socket starts without a context and with
  message number 0.
- The framework drops a socket at once when it is told to keep it for no time. It
  may ask before or after the outcome of the exchange is stored, may drop any idle
  socket at any time, and may or may not keep the socket of a refused request and
  let the task see it.
- No request is sent on a socket whose startup failed before it had a context;
  such a socket may stay and be dropped. This is the one assumption without which
  the guard does not hold: `RequestBeforeStartup` and `KeptSocketSkipsTheGuard`
  say exactly why.
- Authentication inside a response is one deterministic step that may depend on
  every authentication payload so far.
- Cryptography, base64 and the C library's calendar enter as functions with the
  properties stated in `Scram.Standard` and `Instants.Prints`.

## Where the code and expectations part

- After the loss of an idle connection a query is to reconnect by itself when the
  last completed response reported ReadyForQuery 'I' (the client's own README.md:284). It does not
  once a COPY or a notification wait was refused on a replacement session: the
  guard sets the route to unknown (src/factory/PostgresTaskImpl.cc:284-288).
  `RefusalEndsReconnecting` gives such runs, `ReconnectsIff` and `IdleIff` the
  exact condition.
- The length field 0xFFFFFFFF wraps the frame size to 0 in 32 bits
  (src/protocol/PostgresStream.cc:45-52): a frame is reported and nothing is
  consumed. `FrameAdvancesIff` states that this is the only such length;
  statements about loops exclude it by the verdict `Overrun`. What a loop that gets
  through its bytes leaves in the buffer never holds it (`BufferIsWrapFree`), which
  is the `WrapFree` that the readers of the buffer ask for.
- The second loop of `next_result_set` does not stop at CopyData
  (src/protocol/PostgresResult.cc:706): `CursorShowsCopyIff` gives the exact
  condition for seeing every COPY row, `LateCopyIsLost` a stream that fails it.
- The last second before 1970 reads as an error
  (src/protocol/PostgresResult.cc:340-344): `PrintedReadsBackIff`.
- A time before 1970 that is no whole number of microseconds is printed one
  microsecond late (include/PostgresValue.h:96-105): `PrintsFloorIff`.
- The transaction byte outlives `clear_buffer` (include/PostgresResponse.h:90-104);
  `ReadyIsTrustworthy` is what makes it safe to read under `ready_for_query_`.

## Model

| member | source | states |
|---|---|---|
| `Continuity.GuardSafety` | src/factory/PostgresTaskImpl.cc:276-293 | Over every run: SQL goes out on another session than the SQL before it only after a successful disconnect in between, or when that earlier SQL was answered with ReadyForQuery 'I' and the new request is neither COPY nor a notification wait |
| `Continuity.StickyRejection` | src/factory/PostgresTaskImpl.cc:283-292 | Over every run: once the socket is lost with the route at 'T', 'E' or unknown, however it came to that, no reconnect, retry or new task sends SQL on any session before a disconnect succeeds |
| `Continuity.StickyAfterLoss` | src/factory/PostgresTaskImpl.cc:666-688 | The same loss read off the log: the last SQL is not confirmed idle (in a transaction, in COPY, waiting, unanswered), or the guard has refused a request since |
| `Continuity.RouteMeans` | src/factory/PostgresTaskImpl.cc:669-687 | In every reachable state: the route is new exactly when no SQL was sent since the last disconnect, and idle exactly when an idle answer stands that no SQL, no disconnect and no refusal by the guard came after |
| `Continuity.IdleIff` | src/factory/PostgresTaskImpl.cc:284-288 | In every reachable state: the route is idle exactly when some answer ended with ReadyForQuery 'I' and since then no SQL was sent, no disconnect succeeded and no COPY or notification wait was refused with ECONNRESET |
| `Continuity.FailedTransaction` | src/factory/PostgresTaskImpl.cc:553-555 | Over every run: after an answer that reports state 'E' no SQL is sent before a disconnect succeeds |
| `Continuity.SentOnce` | src/factory/PostgresTaskImpl.cc:491-493 | Over every run: the SQL of one task is sent at most once, however often the task is retried |
| `Continuity.CopyDiscipline` | src/factory/PostgresTaskImpl.cc:304-308 | Over every run: after a CopyInResponse a session is sent only COPY requests or a disconnect until it answers again |
| `Continuity.CopyNeedsCopyIn` | src/factory/PostgresTaskImpl.cc:314-318 | Over every run: a COPY request is sent only to a session that answered CopyInResponse before |
| `Continuity.BrokenIsSilent` | src/factory/PostgresTaskImpl.cc:301-303 | Over every run: nothing is sent on a session after it was marked broken |
| `Continuity.WaitEndsWithItsTask` | src/factory/PostgresTaskImpl.cc:340-341 | In every reachable state: a connection waits for notifications only while the task that asked for them is in flight |
| `Continuity.HandleAgrees` | src/factory/PostgresTaskImpl.cc:666-688 | In every reachable state: the handle holds the last ReadyForQuery byte since the last disconnect ('I' if none), and a route that holds 'I', 'T' or 'E' holds the same byte |
| `Continuity.HandleKey` | src/factory/PostgresTaskImpl.cc:679-682 | In every reachable state: key data in the handle are those with which the session that answered last was started, and no started request has failed since |
| `Continuity.KeyIsCleared` | src/factory/PostgresTaskImpl.cc:671-687 | In every reachable state: after a failed started request or a disconnect the key data are gone until a session answers |
| `Continuity.StartupOrder` | src/factory/PostgresTaskImpl.cc:437-475 | Over every run: before anything of a user's is sent on a session, that session has finished startup, with TLS accepted and shaken first, in that order, when TLS is on; and what finished it was an answer that is no error, of protocol version 3 or none named, with the key data the session has |
| `Continuity.LoginIff` | src/factory/PostgresTaskImpl.cc:232-274 | Whatever a server says to a startup, in whatever chunks: the session counts as started if and only if neither an error report nor a refused authentication ends the response and the version is 3 or none; an error report fails the task, with 14003 for SQLSTATE 28P01 and 28000 and 14006 for any other |
| `Continuity.StageNeverDecreases` | src/factory/PostgresTaskImpl.cc:625-640 | Over every run: the stage of one socket never goes back |
| `Reconnecting.SentIff` | src/factory/PostgresTaskImpl.cc:276-324 | In every reachable state, read off the log, exactly when a task's SQL goes out on a started connection: COPY just inside COPY IN, and either no SQL was sent since the last disconnect, or the last was sent on this session, or an idle answer stands and the request tolerates a new session |
| `Reconnecting.ReconnectsByItself` | src/factory/PostgresTaskImpl.cc:283-290 | After any run without a socket and with no task, a request that tolerates it goes out on the next session with no disconnect if no SQL was sent since the last one or an idle answer stands |
| `Reconnecting.ReconnectsIff` | src/factory/PostgresTaskImpl.cc:283-292 | After any run without a socket, whether a task is waiting or not, some way of going on sends SQL before a disconnect succeeds if and only if none was sent since the last one or an idle answer stands |
| `Reconnecting.RefusalEndsReconnecting` | src/factory/PostgresTaskImpl.cc:284-288 | After any run without a socket and with no task on an idle route, a COPY or notification wait refused on the replacement session leaves a plain query refused too, and all SQL until a disconnect, though the last answer is still the idle one |
| `Reconnecting.IdleRun` | src/factory/PostgresTaskImpl.cc:676-677 | There is a run, with TLS and without, that ends on an idle route without a socket and with no task |
| `Reconnecting.Starts` | src/factory/PostgresTaskImpl.cc:447-475 | From any state with a task and no socket, the moves of a startup, with TLS or without, lead to a started session |
| `Reconnecting.DisconnectRecovers` | src/factory/PostgresTaskImpl.cc:647-675 | After any run without a socket and with no task, whatever the route holds, a disconnect task on a new session ends with the route new and the handle fresh |
| `Reconnecting.RequestBeforeStartup` | src/factory/PostgresTaskImpl.cc:447-483 | The user's request is reached on an unstarted connection if and only if the connection was used before and has no context |
| `Reconnecting.KeptSocketSkipsTheGuard` | src/factory/PostgresTaskImpl.cc:283-292 | From any state at rest the moves of runs lead to one where the next request waits on a socket whose startup failed before it had a context, and sending it there, the one move runs leave out, sends it whatever the route says |
| `Continuity.AnswersAreSound` | src/protocol/PostgresResponse.cc:154-165 | Whatever bytes arrive in whatever chunks, what the task reads off its response is an answer the runs consider: a confirmed byte is 'I', 'T' or 'E' and never comes with COPY IN |
| `Continuity.AnswerIsWhatWasSaid` | src/protocol/PostgresResponse.cc:154-160 | Whatever bytes arrive in whatever chunks: the transaction state the task reads off its response is confirmed if and only if the last frame handled is ReadyForQuery with that very byte, 'I', 'T' or 'E'; without a ReadyForQuery at the end it is the state from before |
| `Runs.RunLawful` | src/factory/PostgresTaskImpl.cc:437-499 | Every event of every run satisfies the conditions of its kind, given the events before it |
| `Runs.EventsAreEarned` | src/factory/PostgresTaskImpl.cc:187-274 | Every event of every run has its cause in one step of it: a session is started by an error-free startup answer with its key data, TLS is accepted by the byte 'S', an answer's state and COPY flag are those of the response, each request is the pending task's own |
| `Runs.RunInv` | src/factory/PostgresTaskImpl.cc:295-351 | Every reachable state satisfies the joint invariant of connection, route, handle and task |
| `Runs.DoSteps` | src/factory/PostgresTaskImpl.cc:645-691 | Every move of the environment and the task is one of ten described state changes |
| `Runs.StepLocked` | src/factory/PostgresTaskImpl.cc:283-288 | A locked route stays locked in every step that is not a successful disconnect |
| `Runs.StepSpent` | src/factory/PostgresTaskImpl.cc:491-493 | A task that was sent and comes back can only meet a locked route |
| `Runs.StepCopying` | src/factory/PostgresTaskImpl.cc:304-350 | A connection is in COPY_IN exactly when its session has a COPY open, step by step |
| `Runs.StepDoomed` | src/factory/PostgresTaskImpl.cc:553-555 | A failed transaction leaves the route locked in every step |
| `Task.CheckReconnectGuard` | src/factory/PostgresTaskImpl.cc:276-293 | Refuses with 104 and resets the route to unknown exactly on a just started connection of a fixed route that is neither new nor idle with a tolerant request; else passes and marks the connection used; with every field it changes and does not change |
| `Task.ValidateRequest` | src/factory/PostgresTaskImpl.cc:295-324 | Accepts exactly COPY or a disconnect inside COPY IN, a disconnect while waiting, anything but COPY when ready, nothing when broken; refuses with 9 when broken and 71 otherwise; enters the waiting state |
| `Task.ComplexPostgresTask.SendUser` | src/factory/PostgresTaskImpl.cc:477-498 | The user's message: exactly when the guard holds it back and with which error, what a refusal can be, and when the route is marked unknown |
| `Task.ComplexPostgresTask.MessageOut` | src/factory/PostgresTaskImpl.cc:437-499 | Which message is sent next, by message number and stage, and what happens to connection, route and flags |
| `Session.CancelGoesFirst` | src/factory/PostgresTaskImpl.cc:447-498 | A cancel goes out at once on a new connection, without a startup, and leaves the route alone |
| `Session.UnguardedIsFree` | src/factory/PostgresTaskImpl.cc:283-285 | A task that is not on a fixed route is never held back with ECONNRESET and leaves the route alone |
| `Task.ComplexPostgresTask.UpdateAfterResponse` | src/factory/PostgresTaskImpl.cc:326-351 | The connection's protocol state after an answer: broken after any failure but an error the server reported, COPY IN, ready after a notification or a state byte, else as before; and the connection's key data stamped on the response |
| `Task.ComplexPostgresTask.UpdateContinuity` | src/factory/PostgresTaskImpl.cc:666-688 | Route and handle after success, disconnect or failure: the reported byte or unknown, new and fresh, or the route as it was and the key data gone |
| `Task.ComplexPostgresTask.Settle` | src/factory/PostgresTaskImpl.cc:645-659 | The outcome an exchange is taken for: a peer that closes on a disconnect or cancel is a success, an internal error of the response is the task's error, everything else stays |
| `Task.ComplexPostgresTask.Complete` | src/factory/PostgresTaskImpl.cc:645-691 | The whole state after an exchange has ended |
| `Task.ComplexPostgresTask.FinishStartupAuth` | src/factory/PostgresTaskImpl.cc:232-274 | The task fails exactly on an error answer or a version other than 3, with the number of each case; otherwise the context is at stage 3 with the key data of the answer |
| `Task.ComplexPostgresTask.FinishOnce` | src/factory/PostgresTaskImpl.cc:615-643 | Whether the task goes on, by stage: TLS exactly on 'S' and with a TLS object (14001, 14002 otherwise), the handshake always, a startup as above, a user's request never |
| `Task.ComplexPostgresTask.KeepAliveTimeout` | src/factory/PostgresTaskImpl.cc:537-561 | How long a socket is kept: not at all after a failure, after a disconnect or cancel, in a failed transaction, or in an open one of a connection that is not fixed; during startup for 30000 ms; else for the configured time |
| `Framing.PostgresStream.NextFrame` | src/protocol/PostgresStream.cc:29-53 | Takes the next frame off the unread bytes, or nothing, and moves the cursor by exactly its size |
| `Framing.PostgresStream.NextStartupFrame` | src/protocol/PostgresStream.cc:15-27 | The same for framing without a type byte |
| `Framing.PostgresStream.Append` | src/protocol/PostgresStream.cc:7-9 | Adds bytes behind the unread ones of an owned buffer and leaves the cursor alone; a view does not grow |
| `Framing.PostgresStream.TruncateUnconsumed` | src/protocol/PostgresStream.h:47-49 | Drops the unread bytes of an owned buffer and keeps the consumed ones; a view keeps both |
| `Framing.PostgresStream.Compact` | src/protocol/PostgresStream.cc:56-65 | Drops the consumed bytes and keeps the unread ones, in an owned buffer and in a view |
| `Framing.PostgresStream.Clear` | src/protocol/PostgresStream.cc:67-74 | Leaves nothing to read, in an owned buffer and in a view |
| `Framing.FrameAdvancesIff` | src/protocol/PostgresStream.cc:45-53 | A reported frame moves the cursor if and only if its length field is not 0xFFFFFFFF |
| `Framing.BadLengthIff` | src/protocol/PostgresStream.cc:38-44 | A frame is malformed if and only if its length is below 4, and five bytes of it are taken |
| `Framing.CutFrame` | src/protocol/PostgresStream.cc:29-53 | Of a frame that is cut short nothing is read yet, wherever the cut is |
| `Framing.WalkEncodeAll` | src/protocol/PostgresStream.cc:29-53 | Framing undoes encoding for every list of frames and every remainder that is no frame |
| `Framing.EncodeAllWalk` | src/protocol/PostgresStream.cc:29-53 | Encoding undoes framing for every byte string |
| `Framing.ScanExtends` | src/protocol/PostgresStream.cc:29-53 | More bytes never change a frame that is already there |
| `Wire.ReadWriteU32` | src/protocol/PostgresWireUtil.h:20-24 | A 32-bit field written anywhere reads back, modulo its width |
| `Wire.ReadWriteSigned` | src/protocol/PostgresWireUtil.h:32-38 | Signed fields in range read back exactly |
| `Wire.ReadCStringOf` | src/protocol/PostgresWireUtil.h:79-85 | A NUL-free string written anywhere with its terminator reads back with the position behind it |
| `Wire.NoNulIff` | src/protocol/PostgresWireUtil.h:79-85 | No string is read exactly when there is no NUL from there on |
| `Wire.BigEndian` | src/protocol/PostgresWireUtil.h:14-24 | The most significant byte comes first |
| `Parser.ParseErrorResponse` | src/protocol/PostgresParser.cc:53-71 | The loop over report fields gives the fold of the fields over the report it was given |
| `Parser.ParseNegotiation` | src/protocol/PostgresParser.cc:111-130 | Version and options appended, up to the announced number or the end of the payload |
| `Parser.ParseRowDescription` | src/protocol/PostgresParser.cc:132-157 | The column list, or none at all when the payload is cut short; the caller's list as it was when there is no room for the count |
| `Parser.ParseDataRow` | src/protocol/PostgresParser.cc:169-195 | The cells in order, or rejection, for every payload and column count |
| `Parser.RowCells` | src/protocol/PostgresParser.cc:175-192 | Each cell of an accepted row belongs to its column, and one that is not null lies inside the payload behind its length |
| `Parser.RowOfWritten` | src/protocol/PostgresParser.cc:169-195 | A written value list reads back, null distinct from the empty value |
| `Backend.SaidIsHeard` | src/protocol/PostgresParser.cc:19-203 | Every message a server can send, with its letter and layout written out, changes the response in exactly the fields it speaks of, and ends it exactly when it is ReadyForQuery, CopyInResponse, a refused authentication, an error during startup or a notification in notify mode |
| `Backend.ReportIsRead` | src/protocol/PostgresParser.cc:53-71 | A report is read as written: the last text under each of C, M, D, H and P, and the severity under S or, without one, V |
| `Backend.CutIsIgnored` | src/protocol/PostgresParser.cc:73-109 | A parameter status or notification that is cut short, and key data of less than two words, change nothing |
| `Backend.OptionsUpToCount` | src/protocol/PostgresParser.cc:111-130 | Of the unsupported options as many are read as are announced and present |
| `Delivery.DescriptionIsRead` | src/protocol/PostgresParser.cc:132-157 | A column list, written in the layout of the protocol, is read as it was written, every number of every column |
| `Delivery.CutDescription` | src/protocol/PostgresParser.cc:137-147 | A column list that is cut short anywhere leaves no columns |
| `Delivery.RowIsReadIff` | src/protocol/PostgresParser.cc:169-195 | A written row is read as it was written if and only if it has no more values than there are columns, and rejected otherwise |
| `Delivery.CutRow` | src/protocol/PostgresParser.cc:177-190 | A row that is cut short anywhere is rejected |
| `Response.PostgresResponse.Append` | src/protocol/PostgresResponse.cc:104-185 | One call equals the machine on values: fields, buffer, cursor, reported size and return code |
| `Response.PostgresResponse.ReadFrames` | src/protocol/PostgresResponse.cc:112-174 | The frame loop stops at the finishing frame with exactly its bytes consumed |
| `Response.PostgresResponse.Handle` | src/protocol/PostgresResponse.cc:121-173 | One event: the new fields and whether the response ends |
| `Response.PostgresResponse.Absorb` | src/protocol/PostgresResponse.cc:123-152 | The same for the events that only report |
| `Response.PostgresResponse.ClearBuffer` | include/PostgresResponse.h:90-104 | Everything is reset but the transaction byte, the key data, the modes and the authentication state |
| `Response.ClearedIsFresh` | include/PostgresResponse.h:90-104 | A cleared response is a new one but for the transaction byte, the key data, the modes and the authentication state, and a new one knows nothing |
| `Response.PostgresResponse.GetCopyData` | src/protocol/PostgresResponse.cc:187-206 | The CopyData payloads up to the end of the first COPY, nothing without a CopyOutResponse |
| `Response.PostgresResponse.IsCopyDone` | src/protocol/PostgresResponse.cc:208-224 | Whether CopyDone or ReadyForQuery is met before anything malformed |
| `Receiving.ChunkIndependence` | src/protocol/PostgresResponse.cc:104-185 | Two ways of cutting the same stream leave the same fields, buffer, cursor, total size and verdict |
| `Receiving.ChunksAreOne` | src/protocol/PostgresResponse.cc:104-185 | Any cutting of a stream equals feeding it whole |
| `Receiving.DrainRests` | src/protocol/PostgresResponse.cc:112-183 | Between calls the unread residue never holds a complete frame |
| `Receiving.OverReadBound` | src/protocol/PostgresResponse.cc:176-180 | A finishing call reports at least 1 and at most its chunk, and the buffer gains exactly the reported bytes: the size never underflows |
| `Receiving.DrainIsRun` | src/protocol/PostgresResponse.cc:112-174 | The loop on bytes is the fold over the frames of those bytes, malformed lengths included |
| `Receiving.FinishedMeaning` | src/protocol/PostgresResponse.cc:176-183 | After a finish the fields are the fold up to the finishing frame, the buffer holds exactly those frames and frames again to them, and the reported sizes sum to its length |
| `Receiving.BufferIsWrapFree` | src/protocol/PostgresResponse.cc:112-183 | Whatever the buffer holds after chunks that the loop gets through, finished on a good frame, on one of bad length or not at all, no frame in it has the length 0xFFFFFFFF: what cursor and getters ask of their bytes |
| `Receiving.RunKeepsSound` | src/protocol/PostgresResponse.cc:154-168 | Over any frames: a confirmed byte is one of three and excludes COPY IN; COPY OUT is set exactly when a CopyOutResponse was seen |
| `Receiving.ReadyIsTrustworthy` | src/protocol/PostgresResponse.cc:154-160 | After any exchange on a cleared response, `ready_for_query_` makes the transaction byte trustworthy |
| `Backend.ReadyIsWhatWasSaid` | src/protocol/PostgresResponse.cc:154-160 | After any exchange on a cleared response, finished or not: the transaction byte is confirmed exactly when the last frame handled is ReadyForQuery with that byte, and is the old one without a ReadyForQuery of one byte |
| `Backend.ConversationIsHeard` | src/protocol/PostgresResponse.cc:104-185 | Whatever a server says, cut into chunks anyhow, the response ends with the message that ends it and knows what was said up to there, no more and no less |
| `Backend.BadLengthEnds` | src/protocol/PostgresResponse.cc:113-119 | A length below 4 behind what was said ends the response with the FATAL error of its own, five bytes taken |
| `Backend.StartupFailsIff` | src/protocol/PostgresResponse.cc:123-129 | A startup response is an error exactly when an error report or a refused authentication ends it, and then carries that report |
| `Cursor.ResultCursor.constructor` | src/protocol/PostgresResult.cc:471-478 | Opens on the header of the first result set |
| `Cursor.ResultCursor.ParseMetadata` | src/protocol/PostgresResult.cc:539-568 | The header of a result set, with the step back onto a row |
| `Cursor.ResultCursor.FetchRow` | src/protocol/PostgresResult.cc:570-610 | One row or the reason for none; every non-null cell lies inside the payload of the frame just read, and the cursor stands behind it |
| `Cursor.ResultCursor.FetchAll` | src/protocol/PostgresResult.cc:634-641 | Every row the cursor still gives, in order, and where it stops |
| `Cursor.ResultCursor.FinishSet` | src/protocol/PostgresResult.cc:682-696 | The first loop of the move: to the completion of the current set |
| `Cursor.ResultCursor.SeekSet` | src/protocol/PostgresResult.cc:698-714 | The second loop: to the next frame that can open a set |
| `Cursor.ResultCursor.NextResultSet` | src/protocol/PostgresResult.cc:677-715 | The whole move to the next result set |
| `Cursor.Fetch` | src/protocol/PostgresResult.cc:570-610 | A row makes the unread bytes fewer, and nothing else can leave them and turn the done flag: half of the termination measure |
| `Cursor.Next` | src/protocol/PostgresResult.cc:677-715 | Moving on makes the unread bytes fewer, or leaves them and turns the done flag off: the other half |
| `Cursor.ReadEverything` | src/protocol/PostgresResult.cc:634-715 | The client loop of draining and moving on ends on any bytes, and yields what its definition says |
| `Reading.CursorRefinesOnePass` | src/protocol/PostgresResult.cc:539-715 | For all bytes a response can hold (whole frames, ReadyForQuery last or absent, behind them a part of a frame or the five bytes taken of a bad one), the lazy cursor yields the result sets of one pass over the frames, in which a set ends, without its tag, at a row that cannot be read, and the rest of that set is passed over |
| `Reading.CursorShowsCopyIff` | src/protocol/PostgresResult.cc:706-710 | COPY rows are shown by the cursor in full if and only if none follows a completed set without a header, row or completion in between |
| `Reading.LateCopyIsLost` | src/protocol/PostgresResult.cc:706-710 | A concrete stream whose second statement's COPY row the cursor never shows |
| `Moving.FetchIsNeutral` | src/protocol/PostgresResult.cc:570-610 | One fetch of any kind changes neither where the next result set begins nor what is known of it |
| `Moving.RowCountIndependence` | src/protocol/PostgresResult.cc:677-715 | The move lands at the same place with the same columns, tag and flag after any number of fetches |
| `Moving.BadFrameStops` | src/protocol/PostgresResult.cc:539-715 | Where a frame of bad length stands behind frames without meaning: opening takes its five bytes, opens an empty set and goes on behind them, while a fetch and a move fail and change nothing |
| `Moving.CursorOnBoundary` | src/protocol/PostgresResult.cc:570-715 | On any bytes, after any calls in any order, the cursor stands a whole number of frames into the buffer |
| `CopyOut.AnyResponseReads` | src/protocol/PostgresResult.cc:471-478 | Whatever became of an exchange (a good end, a bad frame, no end at all), what the cursor yields on the buffer is the one pass over its whole frames |
| `CopyOut.FinishedResponseReads` | src/protocol/PostgresResult.cc:471-478 | After any exchange that finished on a well-formed frame, however the bytes were cut, what the cursor yields is the one pass over the frames up to the finishing one |
| `CopyOut.CopyOutAgrees` | src/protocol/PostgresResponse.cc:187-224 | For every finished COPY OUT response with asynchronous frames interleaved, the getters and the cursor give the same rows, and the COPY is reported done |
| `CopyOut.GettersRead` | src/protocol/PostgresResponse.cc:187-224 | On any bytes, up to a frame of bad length or one cut short: the getter gives the CopyData up to the first CopyDone, CommandComplete or ReadyForQuery, and the COPY is done exactly when a CopyDone or ReadyForQuery is there |
| `Delivery.SetsAreDelivered` | src/protocol/PostgresResult.cc:539-715 | Whatever frames of other kinds stand between them, the cursor gives back the result sets a server wrote: columns, rows and tags |
| `Delivery.QueryIsAnswered` | src/protocol/PostgresResponse.cc:104-185 | From the server's values to the caller's: whatever result sets and state a server writes, in whatever chunks they arrive, the response ends there with that state and the cursor gives exactly those sets |
| `Request.PostgresRequest.Encode` | src/protocol/PostgresRequest.cc:10-19 | What is sent delivers the request to a server that reads it: a disconnect before anything else, a cancel, COPY data with its end or failure, nothing for a notification wait, the startup's user, database and parameters, an extended query exactly when there are parameters, else the text |
| `Request.OutputDelivers` | src/protocol/PostgresRequest.cc:10-19 | The same for every combination of flags and fields, up to the size a length field can hold |
| `Request.ExtraKeeps` | src/protocol/PostgresRequest.cc:90-97 | Of the startup parameters every one is sent as often as it was set, except user and database |
| `Request.CutUntyped` | src/protocol/PostgresStream.cc:15-27 | Of an untyped message that is cut short nothing is read yet |
| `Request.PostgresRequest.EncodeTerminate` | src/protocol/PostgresRequest.cc:27-34 | One Terminate frame |
| `Request.PostgresRequest.EncodeCancel` | src/protocol/PostgresRequest.cc:36-45 | One untyped message with the cancel code, process and secret |
| `Request.PostgresRequest.EncodeCopy` | src/protocol/PostgresRequest.cc:47-73 | The frames of a COPY request, and 0 when there are none |
| `Request.PostgresRequest.EncodeStartup` | src/protocol/PostgresRequest.cc:75-106 | One untyped message with version and parameters |
| `Request.PostgresRequest.EncodeSimpleQuery` | src/protocol/PostgresRequest.cc:108-120 | One 'Q' frame |
| `Request.PostgresRequest.EncodeExtendedQuery` | src/protocol/PostgresRequest.cc:122-198 | The frames [P] B D E S in order |
| `Request.BuildBind` | src/protocol/PostgresRequest.cc:142-166 | The Bind payload its five loops and writes build |
| `Request.ExtendedRoundTrip` | src/protocol/PostgresRequest.cc:122-198 | For NUL-free names and query, under 2^15 parameters and sizes in range: framing the output gives exactly [P] B D E S with no residue, and the payloads give back names, query, OIDs, formats and values, null distinct from empty |
| `Request.BindRoundTrip` | src/protocol/PostgresRequest.cc:142-166 | The Bind payload, its value list read by the DataRow reader, gives everything back and ends where it should |
| `Request.ParseRoundTrip` | src/protocol/PostgresRequest.cc:125-139 | The Parse payload gives back name, query and OIDs |
| `Request.PostgresSSLRequest.Encode` | src/protocol/PostgresRequest.cc:200-210 | One untyped message that holds the TLS code and nothing else |
| `Request.SslRoundTrip` | src/protocol/PostgresRequest.cc:200-210 | The request for TLS is one untyped frame of eight bytes that gives its code back |
| `Request.CancelRoundTrip` | src/protocol/PostgresRequest.cc:36-45 | A cancel is one untyped frame that gives code, process and secret back |
| `Request.StartupRoundTrip` | src/protocol/PostgresRequest.cc:75-106 | A startup message is one untyped frame that gives back version and parameters in order, user and database once |
| `Request.CopyRoundTrip` | src/protocol/PostgresRequest.cc:47-73 | COPY frames give back data, end and failure text with nothing left over; empty output exactly when nothing was asked for |
| `Request.SimpleRoundTrip` | src/protocol/PostgresRequest.cc:108-120 | A simple query is one frame that gives the text back |
| `Request.ScanUntyped` | src/protocol/PostgresStream.cc:15-27 | Startup framing of a message built by the encoder gives its body back |
| `Scram.ScramAuth.Init` | src/auth/ScramAuth.cc:53-56 | User and password are those given; what an earlier exchange left is kept |
| `Scram.ScramAuth.GenerateClientFirstMessage` | src/auth/ScramAuth.cc:58-66 | Nonce and first message from the random bytes; nothing changes when there are none |
| `Scram.FoldParts` | src/auth/ScramAuth.cc:73-89 | The splitting loop hands every comma-separated part on, in order, until one is not taken |
| `Scram.ParseServerFirst` | src/auth/ScramAuth.cc:70-89 | The attribute loop is the fold over the comma-separated parts, the last of a name winning, a bad count failing |
| `Scram.ScramAuth.GenerateClientFinalMessage` | src/auth/ScramAuth.cc:68-139 | The final message and what is remembered, or the empty string with nothing remembered |
| `Scram.ScramAuth.VerifyServerSignature` | src/auth/ScramAuth.cc:141-165 | Whether the message is accepted, in every case |
| `Scram.MixKeys` | src/auth/ScramAuth.cc:133-136 | The proof is the bytewise exclusive or of key and signature |
| `Scram.XorBytesTwice` | src/auth/ScramAuth.cc:133-136 | Mixing twice with the same signature gives the key back |
| `Scram.XorBytesBits` | src/auth/ScramAuth.cc:133-136 | Each bit of the mixture says whether the two bits it is mixed from differ |
| `Scram.ServerFirstIsRead` | src/auth/ScramAuth.cc:70-93 | For a comma-free nonce, any salt and any count below 2^31, the loop recovers nonce, salt and count, whatever extensions follow |
| `Scram.ScramAgreement` | src/auth/ScramAuth.cc:68-165 | Given the same password, a nonce that extends the client's, any non-empty salt and any positive count: a server with only StoredKey and ServerKey recovers from the proof a client key hashing to StoredKey, and the client accepts its signature |
| `Scram.AnswersIff` | src/auth/ScramAuth.cc:68-112 | Exactly when a first message of a server, whatever its bytes, is answered: its last nonce extends the client's, its last salt and count can be used, and no count in it is anything but a number |
| `Scram.AnswersOwnNonceIff` | src/auth/ScramAuth.cc:95-112 | Of the messages a server writes the client answers exactly those with a nonce that extends its own, a salt, a positive count and a key derived from them |
| `Scram.NothingIsVerifiedFirst` | src/auth/ScramAuth.cc:141-146 | Before a final message was sent nothing the server says is accepted |
| `Scram.OnlyTheServerVerifies` | src/auth/ScramAuth.cc:141-165 | After a final message the client accepts, of all byte strings, exactly those that are `v=` and an encoding of HMAC(ServerKey, AuthMessage) of the very exchange it saw |
| `Numbers.IntegerRoundTrip` | include/PostgresValue.h:200-200 | The decimal text of every integer, as to_string writes it, reads back |
| `Numbers.NumberIsRead` | src/auth/ScramAuth.cc:81-86 | Blanks in front, a plus sign and anything behind that is no digit make no difference to a number, and one that does not fit an int is refused |
| `Numbers.NoNumber` | src/auth/ScramAuth.cc:81-86 | Without a digit behind blanks and a sign there is no number |
| `Tags.ParseCommandTagParts` | src/protocol/PostgresResult.cc:721-796 | Command, OID and row count of a tag, each 0 or empty when it is not there |
| `Tags.WordsOfSpaced` | src/protocol/PostgresResult.cc:733-742 | Words written with blanks between them are found again |
| `Tags.InsertTagIsRead` | src/protocol/PostgresResult.cc:779-796 | An INSERT's tag gives its OID and its count back, up to 64 bits, and a number alone is the count |
| `Tags.TagIsRead` | src/protocol/PostgresResult.cc:746-777 | Any other tag gives its command and its count back, 0 without a number at its end |
| `Tags.HugeCountIsZero` | src/protocol/PostgresResult.cc:746-777 | A count that does not fit 64 bits reads as 0 |
| `Tags.BlanksAreSkipped` | src/protocol/PostgresResult.cc:733-742 | However many blanks stand in front of the words, or alone, make no difference |
| `Literals.FormatTextArray` | include/PostgresValue.h:157-171 | The literal with every element quoted and escaped |
| `Literals.FormatArray` | include/PostgresValue.h:195-204 | The literal with bare numbers |
| `Literals.TextArrayRoundTrip` | include/PostgresValue.h:157-171 | Every vector of strings reads back from its literal under the grammar of section 8.15.6 of the PostgreSQL documentation |
| `Literals.TextArrayInjective` | include/PostgresValue.h:157-171 | Different vectors of strings have different literals |
| `Literals.IntegerArrayRoundTrip` | include/PostgresValue.h:195-204 | Every vector of integers reads back element by element |
| `Literals.ToHexBytea` | include/PostgresValue.h:14-24 | The prefix and two lower-case digits for each byte |
| `Literals.AsBytea` | src/protocol/PostgresResult.cc:420-448 | What a bytea cell holds, in binary, hex text or raw text |
| `Literals.ByteaRoundTrip` | src/protocol/PostgresResult.cc:430-444 | Binary data survives being sent and read as text |
| `Literals.OtherBytea` | src/protocol/PostgresResult.cc:420-448 | A null cell holds nothing, a binary one its bytes whatever they look like, a text without the prefix itself, and the prefix may be of either case |
| `Literals.HexOfBytes` | src/protocol/PostgresResult.cc:433-442 | What reading any hex text keeps of it: every pair, in lower case, 0 for what is no digit, an odd digit at the end dropped |
| `Instants.SplitMicros` | src/protocol/PostgresResult.cc:265-270 | Truncating division and its correction are floor division, 0 <= microseconds < 10^6, and the instant is kept |
| `Instants.SplitNanos` | include/PostgresValue.h:96-105 | The split of a time point before printing |
| `Instants.PrintsFloorIff` | include/PostgresValue.h:96-105 | The printed split is the floor in microseconds if and only if the time is not before 1970 or is a whole number of them |
| `Instants.ReadFraction` | src/protocol/PostgresResult.cc:283-294 | The digits behind the point as millionths, those past the sixth dropped |
| `Instants.OffsetIsRead` | src/protocol/PostgresResult.cc:225-256 | A zone written as hours, hours and minutes, or with a colon is read as written |
| `Instants.AsTextDatetime` | src/protocol/PostgresResult.cc:275-316 | A date and time in text, its zone taken out |
| `Instants.AsDatetime` | src/protocol/PostgresResult.cc:258-318 | The broken-down time and microseconds of a cell, or failure |
| `Instants.AsTimePoint` | src/protocol/PostgresResult.cc:320-348 | The instant of a cell, or failure |
| `Instants.BinaryDecodersAgree` | src/protocol/PostgresResult.cc:320-333 | Both binary decoders denote the same instant |
| `Instants.BinaryIsRead` | src/protocol/PostgresResult.cc:258-333 | Microseconds since 2000 in a binary cell are read, by both decoders, as the instant 946684800 seconds later |
| `Instants.TextIsRead` | src/protocol/PostgresResult.cc:275-316 | What a text says: a date and time with a blank or a T, a fraction of any number of digits or none, a zone or nothing; with anything else behind them it is no time |
| `Instants.ZonesAre` | src/protocol/PostgresResult.cc:225-256 | Z in either case is UTC; another letter, a sign without two digits and a colon without two digits are no zone |
| `Instants.OtherCells` | src/protocol/PostgresResult.cc:258-276 | A null cell and a binary one of another size hold no time; a text is read up to its first NUL |
| `Instants.TextTimePoint` | src/protocol/PostgresResult.cc:336-347 | The instant of a text is that of its broken-down time and microseconds, unless it is the second that stands for an error |
| `Instants.ZonedDateTime` | src/protocol/PostgresResult.cc:296-308 | A time written with any zone is read as the same instant in UTC, except in the second before 1970 |
| `Instants.PrintTimePoint` | include/PostgresValue.h:94-116 | The text of a time point: date and time of the second it is split into, six digits of microseconds, and the zone |
| `Instants.PrintedDateTime` | include/PostgresValue.h:94-116 | A printed time point is read back as the same broken-down time and microseconds |
| `Instants.PrintedReadsBackIff` | src/protocol/PostgresResult.cc:340-346 | A time point of whole microseconds reads back exactly if and only if it does not lie in the second before 1970 |

## Left out

- ChunkIndependence: does not cover streams in which the frame loop meets the length field 0xFFFFFFFF before it finishes.
- CursorRefinesOnePass: does not cover bytes with ReadyForQuery before the last whole frame, or with more than five bytes from a bad frame on; no response holds any.
- ExtendedRoundTrip: does not cover names or text with NUL, 2^15 or more parameters, or fields that do not fit their width, all of which the encoder writes as they come.
- GuardSafety: does not cover runs that send a request on a socket whose startup failed before there was a context; see KeptSocketSkipsTheGuard.
- The scheduler, communicator, retry engine and route manager of the framework: they appear only as the moves of `Runs`.
- TLS objects and certificates, the wrapping of messages for TLS, real hashes and random numbers.
- What happens inside authentication other than SCRAM (MD5 and clear-text passwords, the dispatch on the request type).
- Cancel tasks: they use a route of their own and make no promise of continuity.
- A disconnect task whose startup is reset: the loss of a socket during startup leaves the route as it was.
- Streams with the length field 0xFFFFFFFF, beyond the fact that this one length consumes nothing.
- Vectors of output buffers: the encoder's result is the bytes and the number of buffers.
- The contents of the caller's row after a fetch that failed.
- Cells are positions in the buffer; detaching, copying and moving them, and rows as maps by column name.
- Copying and moving of responses and cursors; the getters that only return a field.
- The reply fields of a response are one record, and the frame loops of the cursor share one method that skips frames.
- The parameters and flags of a request are one constant record: its setters are not modelled, only what they leave.
- Numbers beyond 64 bits in timestamps: the sums of the time decoders are unbounded here, where the code's would overflow.
- Arrays read from binary cells, `as_int`, `as_time`, `as_date`, floating point, UUID and JSON cells.
- URL parsing, query maps, connection options and the factory functions.
- The strings of dates and times formatted by `as_datetime_string`, beyond the split they share with `as_datetime`.
