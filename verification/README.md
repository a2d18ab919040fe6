# Verified model of socketcore

This project models the stateful parts of socketcore - the framing protocol and its session reader,
the accept loop, the timers on the event loop, the allocation of unique ids, and the database cursor -
and proves what holds over all their runs.

`dafny verify dfyconfig.toml` checks the whole project.

## How the model is built

| file | what it holds |
|---|---|
| `Basics.dfy` | an option type and three facts about sequences |
| `Wire.dfy` | the frame format, a one-shot parser of a whole stream, round trips and unique decodability |
| `Reader.dfy` | the receive state machine of `Session` on values: the mutable buffer, the header, `body_lenght_`, the outstanding reads; refinement of the parser; independence of segmentation |
| `Link.dfy` | `doWrite` at one end, the byte channel, the reader at the other end: delivery, bounds, progress |
| `Server.dfy` | the accept loop and any number of sessions on one event loop: order, delivery, progress |
| `SessionObjects.dfy` | the classes `message` and `Session`, updated in place, proved against `Reader.dfy`, and a session object driven through a whole stream |
| `Ids.dfy` | the probe sequence of both `uuid` functions, with the 32-bit wrap and the reduction modulo 2^32 - 1 |
| `SocketIds.dfy` | `Socket::uuid` as a method, and the protocol of many threads |
| `Timers.dfy` | one timer and the event loop with its clock, queue and static tables, as a step system |
| `TimerTheorems.dfy` | identity, the cost of the searches, timing and cancellation over all runs |
| `TimerProgress.dfy` | which steps a timer can take, the recorded history against the run, looping timers go on for ever |
| `Drain.dfy` | when `run()` returns, with termination measures: timers that cancel themselves, and timers cancelled by anyone |
| `TimerObjects.dfy` | the class `mytimer` and its static tables, updated in place, proved against `Timers.dfy` |
| `Database.dfy` | `fetch_row` as a class, and the cursor against a reference without a cursor |

Code that changes fields is a class whose methods are proved equal to functions on values; the
theorems about runs are then proved about those functions, for every sequence of enabled steps.

## Assumptions

- The platform is little-endian and `sizeof(Header)` is 4.
- `async_read` completes once, with a full buffer or with an error; a read of length zero succeeds; no
  handler runs inside the call that initiates it; one thread calls `run()`. Bytes reach the buffer of
  an outstanding read in arbitrary pieces.
- `doWrite` hands `async_write` a buffer on its own stack and keeps no queue of writes
  (libsocket/session.cpp:51-56). The model takes the evident intention: each accepted call appends its
  whole frame to the stream at the time of the call.
- For messages that are not PROTO the header field `pmt_` is never assigned; the byte on the wire is a
  parameter, and the theorems hold for every value of it. `assert` is active, as no build file of the
  repository switches it off; a call that fails it ends the process and is no step of a run.
- `deadline_timer::cancel` aborts waits that are pending, not completions already queued as a success.
  `expires_at` cancels what is pending.
- `mytimer::uuid_` belongs to each timer and is not initialised; its start value is a parameter.
- The erase of an id in `Socket::read` does not take the mutex; the model treats it as atomic.
- MySQL is an oracle: what the n-th query gives is a function of n and of its text.

## Results that differ from what one might expect

- `getProtoMessageType` returns the sender's argument only for PROTO messages
  (`Wire.ProtoTypeSurvivesIff`), so delivery is stated for the body, the type, and the proto type of
  PROTO messages.
- A length over 1024 makes `decode` write outside `data_`. The reader theorems hold for all streams up
  to such a header; `Reader.OverrunIff` says exactly which streams reach it, `Reader.OverrunHappens`
  gives one, and `Link.EncodedStreamsStayInBounds` says that no stream of `encode` does.
- `cancel` can be followed by one more callback; `TimerTheorems.CancelRaceIff` says exactly when, and
  `TimerTheorems.CancelRaceHappens` gives runs that get there.
- Timer ids are never given back. `TimerTheorems.CreationEndsIff`: the constructor of a timer returns
  if and only if fewer than 2^32 - 1 timers were created before; `TimerTheorems.IdsRunOut`: there is a
  run that gets there.
- A cursor cannot tell a lost connection from the end of a result: both are the null after the rows.

## Model

| member | source | states |
|---|---|---|
| `Wire.Check` | libsocket/message.hpp:50-60 | a body is refused for its length exactly when it has more than 1024 bytes (so the `pow(maxByte, 16)` test never decides), the assertion fails exactly for a shorter body of type 2 with proto type 255, and every other call is accepted |
| `Wire.FrameReadsBack` | libsocket/message.hpp:61-72 | the bytes of a frame, followed by anything, are read back as that frame |
| `Wire.FrameWritesBack` | libsocket/message.hpp:61-72 | a stream that starts with a legal frame starts with the bytes of the packet read from it |
| `Wire.ParseUnparse` | libsocket/message.hpp:50-73 | parsing any concatenation of frames gives back the packets and the parse of what follows |
| `Wire.UnparseParse` | libsocket/message.hpp:50-73 | on any stream the parser loses no byte and leaves nothing that starts with a frame |
| `Wire.PrefixFree` | libsocket/message.hpp:50-65 | no frame is a proper prefix of another |
| `Wire.RawFrameParses` | libsocket/message.hpp:61-73 | for every body of up to 1024 bytes and any two type bytes, the bytes length-low, length-high, type, proto type, body are one frame that is read as that packet, whatever follows |
| `Wire.RawStreamParses` | libsocket/message.hpp:61-73 | the same for any number of frames |
| `Wire.StreamDecodes` | libsocket/message.hpp:50-73 | the bytes of accepted calls parse to their messages with no leftover, for every unassigned byte |
| `Wire.StreamIsInjective` | libsocket/message.hpp:50-65 | equal byte streams come from equal message sequences, whatever the unassigned bytes |
| `Wire.ProtoTypeSurvivesIff` | libsocket/message.hpp:55-60 | the proto type argument survives exactly for PROTO or by the accident of the unassigned byte |
| `Reader.Step` | libsocket/session.cpp:19-47 | every step keeps: at most one outstanding read, accesses inside 1029 bytes, `body_lenght_` equal to the two-byte length, the terminator behind the body; only the body handler shows a message |
| `Reader.FillKeepsValid` | libsocket/session.cpp:34-38 | bytes that arrive for a body leave the header and the terminator alone, at any progress |
| `Reader.AfterHeader` | libsocket/message.hpp:68-73 | after the header handler the state is valid again: the length has no byte of an older one and fits, or the header was illegal |
| `Reader.DecodeInBoundsIff` | libsocket/message.hpp:68-73 | `decode` stays inside `data_` exactly when the length field is at most 1024 |
| `Reader.ObservedIsFrame` | libsocket/session.h:37-43 | a complete body is shown as exactly the frame in the buffer, in spite of stale bytes of longer bodies |
| `Reader.StepExplains` | libsocket/session.cpp:19-47 | each step keeps: bytes taken are the frames shown plus the partial frame in the buffer |
| `Reader.ReaderRefinesParser` | libsocket/session.cpp:19-47 | for every stream, segmentation and schedule, also with a read error, the packets shown begin the one-shot parse; with no handler ready and no read error they are the whole parse and the buffer holds its rest |
| `Reader.RawFramesAreShown` | libsocket/session.cpp:19-47 | a session that has taken frames of up to 1024 bytes, written out byte by byte, in any pieces, and has no handler ready and no error, shows exactly their packets |
| `Reader.OverrunIff` | libsocket/message.hpp:68-73 | the undefined case is reached exactly when the parser meets a length over 1024 |
| `Reader.OverrunHappens` | libsocket/message.hpp:68-73 | four bytes that state the length 1025 do reach it |
| `Reader.BytesAccounted` | libsocket/session.cpp:19-47 | bytes taken are the sum of 4 + length over delivered messages plus the progress in the current frame |
| `Reader.CallbackSeesCurrentFrame` | libsocket/session.cpp:38-42 | in a callback the getters show the last frame of the stream so far, and a zero byte follows the body |
| `Reader.FailureIsLast` | libsocket/session.cpp:28-29 | after a read error nothing more happens to the session |
| `Reader.CallbackBrackets` | libsocket/session.cpp:38-42 | a session is in its callback exactly between the body handler and its re-arming, and only the first logs |
| `Reader.AbsorbConcat` | libsocket/session.cpp:19-47 | feeding a and then b is feeding a + b, for every split point |
| `Reader.SegmentationIndependence` | libsocket/session.cpp:19-47 | a run without a read error settles in the state - log, buffer, header, length, outstanding read - of the byte-at-a-time execution of the same stream; a run that ends with one has shown a beginning of the same messages, and if no handler was ready then, it ends in that same state with the read gone |
| `Reader.SameBytesSameState` | libsocket/session.cpp:19-47 | two runs over the same bytes, both with or both without a read error, with no handler left to run at the end or before the error, end in the same state |
| `Link.DeliveryIsPrefix` | libsocket/session.cpp:19-63 | in every run the callbacks show the body and type, and for type 2 the proto type, of the first of the accepted `doWrite` calls, in order |
| `Link.DeliveryIsComplete` | libsocket/session.cpp:19-63 | with nothing in flight, no handler ready and no error, all messages sent have been shown |
| `Link.SentIsAccepted` | libsocket/session.cpp:50-62 | what counts as sent is exactly the calls of `doWrite` in the run that `encode` accepts, in order |
| `Link.WriteEffect` | libsocket/session.cpp:50-63 | in every state a call aborts exactly for type 2 with proto type 255 and at most 1024 bytes, changes nothing over 1024 bytes, and otherwise puts exactly one frame on the channel |
| `Link.ArrivalEffect` | libsocket/session.cpp:20-22 | in every state with a read outstanding, any beginning of what is in flight that it has room for can arrive, and the read can fail |
| `Link.AnyListCanBeDelivered` | libsocket/session.cpp:19-63 | after every run without an error, also in the middle of a frame or a callback, any list of legal calls can be made, and the reader can then show all messages sent before and exactly these |
| `Link.EncodedStreamsStayInBounds` | libsocket/message.hpp:27-30 | on streams written by `encode` no run leaves the buffer |
| `Link.ReadsAreBounded` | libsocket/session.cpp:19-47 | without new writes the reader takes at most a bounded number of steps |
| `Link.CanRead` | libsocket/session.cpp:19-47 | while bytes are in flight or a handler is ready the reader has a step other than failing |
| `Link.CanFlush` | libsocket/session.cpp:19-63 | from every reachable state without an error, everything sent can be delivered within that bound and without an error |
| `Link.EveryMaximalRunDelivers` | libsocket/session.cpp:19-63 | a run without error that the reader cannot continue has delivered everything |
| `Server.AcceptsAreAccounted` | libsocket/socket.cpp:18-31 | each call of `accept` is outstanding, in its handler, or failed: one call never gives two outstanding accepts, and while fewer have failed than were called the free loop can take a connection |
| `Server.CanAccept` | libsocket/socket.cpp:18-31 | from every reachable state with no handler running and an outstanding accept, the accept handler can run from end to end on any memory: one live empty session more, its callback logged, an accept outstanding again |
| `Server.AnyWorkloadCanBeServed` | libsocket/socket.cpp:18-31 | from every such state any number of connections can be accepted, any legal calls be made by the peers of all sessions in any order, and every session without an error can show exactly what its own peer sent |
| `Server.OneAcceptServesAll` | libsocket/socket.cpp:18-31 | one call of `accept` is enough for any number of sessions, each shown exactly its peer's messages |
| `Server.HandlersDoNotOverlap` | libsocket/socket.cpp:21-30 | while a handler runs, only its own next part can run, besides calls of `accept`, peers' writes and arriving bytes |
| `Server.OutsideIsNeverBlocked` | libsocket/session.cpp:19-63 | in every reachable state `accept` can be called, every peer can write, what is in flight can arrive, and on the free loop every outstanding accept or read can fail |
| `Server.AnySessionCanGoNext` | libsocket/session.cpp:19-47 | with no handler running, any unfailed session with work can be the next |
| `Server.AcceptComesFirst` | libsocket/socket.cpp:22-26 | a session's "accept" callback comes once and before its "read" callbacks, although `start` is called first |
| `Server.EverySessionDelivers` | libsocket/session.cpp:19-63 | in the global log of callbacks, each session's messages are the first messages of its own peer |
| `Server.EverySessionCanBeServed` | libsocket/session.cpp:19-63 | from every reachable state the loop can show every session whose connection has not failed everything its peer has sent, in a bounded number of steps and without a new error; failed sessions stop nobody else |
| `Server.ProgressIsBounded` | libsocket/session.cpp:19-47 | between calls from outside the whole server takes a bounded number of steps |
| `Server.CanServe` | libsocket/socket.cpp:18-31 | while a handler is running or an unfailed session has work, the loop has a step other than failing |
| `Server.OneReadOutstanding` | libsocket/session.cpp:19-47 | outside its own callback a session without error has exactly one outstanding read |
| `SessionObjects.Message.constructor` | libsocket/message.hpp:34-37 | the length and the header start as zero; the buffer has 1029 bytes and is not cleared |
| `SessionObjects.Message.Encode` | libsocket/message.hpp:50-65 | it throws exactly over 1024 bytes and aborts exactly for a shorter body of type 2 with proto type 255; otherwise bytes 0 and 1 are the length, byte 2 the type, byte 3 the proto type for type 2, then the body; the buffer behind it, length and header are untouched; a throw changes nothing |
| `SessionObjects.Message.DecodeHeader` | libsocket/message.hpp:68-73 | the header, the low two bytes of the length and one terminator byte are overwritten, nothing else |
| `SessionObjects.Session.constructor` | libsocket/session.h:15-20 | a new session is the initial state of the value model |
| `SessionObjects.Session.Receive` | libsocket/session.cpp:20-22 | the arriving bytes fill the region of the outstanding read in place |
| `SessionObjects.Session.OnHeader` | libsocket/session.cpp:23-30 | the in-place handler is the step `HeaderDone` |
| `SessionObjects.Session.OnBody` | libsocket/session.cpp:38-40 | the in-place handler is the step `BodyDone`, and the callback is shown what the step logs |
| `SessionObjects.Session.OnError` | libsocket/session.cpp:28-29 | a handler with an error is the step `Fail`: no new read is started |
| `SessionObjects.Session.GetReadmsg` | libsocket/session.h:37-43 | the body that the value model observes |
| `SessionObjects.DoWrite` | libsocket/session.cpp:50-56 | what goes out is one frame of 4 bytes and the body: length low byte first, type, proto type for type 2; it parses to the one packet; nothing goes out when `encode` throws, exactly in the cases of `encode` |
| `SessionObjects.TakePiece` | libsocket/session.cpp:19-47 | one arriving piece of any length, over any number of frames, is taken in place and leaves the session waiting, or at an illegal header |
| `SessionObjects.ReadStream` | libsocket/session.cpp:19-47 | a session object that is given a stream in any pieces shows exactly the packets of the one-shot parse - all of them if the stream is frames of up to 1024 bytes -, keeps the rest in the buffer, and stops early exactly at a length over 1024 |
| `Ids.Reduce` | libsocket/socket.cpp:99-100 | the reduced counter is an id, and of all counter values only 2^32 - 1 is changed, to 0 |
| `Ids.EveryIdIsTried` | libsocket/socket.cpp:96-104 | every id is tried within one turn of the counter |
| `Ids.SearchEndsIff` | libsocket/socket.cpp:96-104 | the search ends if and only if an id is free |
| `Ids.SameSlotIff` | libsocket/socket.cpp:99-100 | two probes of one turn collide exactly on the counters 0 and 2^32 - 1 |
| `Ids.TriedSize` | libsocket/socket.cpp:96-104 | m probes try m ids, one fewer exactly when they have passed both counters of id 0 |
| `Ids.MissesBound` | libsocket/socket.cpp:96-104 | a search fails at most once more often than there are used ids, across the wrap |
| `Ids.MissesBoundIsMet` | libsocket/socket.cpp:96-104 | the extra probe happens |
| `Ids.SomeFreeIff` | libsocket/socket.cpp:96-110 | an id is free if and only if fewer than 2^32 - 1 are used |
| `Ids.SearchFromZero` | libsocket/mytimer.hpp:67-81 | with 0..k-1 taken, the search from 0 gives id k after k failures |
| `SocketIds.Socket.Uuid` | libsocket/socket.cpp:96-104 | the loop ends with the first free id in counter order, inserts it, and leaves the counter behind it |
| `SocketIds.IdsAreFresh` | libsocket/socket.cpp:96-110 | with any number of threads no id is returned twice without an effective erase between, no id of the initial set before an erase of it, and the set grows by claims less effective erases |
| `SocketIds.FullTurnClaimsAll` | libsocket/socket.cpp:96-110 | without erases, after a full turn of fetches each id still free is held by a thread about to claim it |
| `SocketIds.AloneIsUuid` | libsocket/socket.cpp:96-110 | a thread that is not interrupted claims the id that the method `Uuid` returns, after as many fetches |
| `SocketIds.ThreadsNeverBlock` | libsocket/socket.cpp:96-110 | whatever the others hold, every thread has its next step, and a held id is claimed exactly when it is free at that moment |
| `SocketIds.EraseFrees` | libsocket/socket.cpp:63 | an erase frees its id and nothing else, whether or not it was in the set |
| `SocketIds.ErasedIdComesBack` | libsocket/socket.cpp:63-104 | after the erase of an id any thread can alone receive exactly that id again |
| `Timers.NewId` | libsocket/mytimer.hpp:67-81 | whatever the counter starts at, the id is an `int`, unused, and never -1 |
| `Timers.NewIdIsFirst` | libsocket/mytimer.hpp:67-81 | the id is the first unused value of the wrapping `int` counter from its start, with -1 read as 0, and the turns are those up to it |
| `Timers.StepKeepsInv` | libsocket/mytimer.hpp:17-59 | every step keeps the table, wait and deadline invariants of all timers |
| `Timers.CreateKeepsTables` | libsocket/mytimer.hpp:48-50 | `retain` always inserts, and the tables stay consistent |
| `TimerTheorems.OneWaitPerTimer` | libsocket/mytimer.hpp:32-45 | one wait at most is pending, queued or running; exactly one while the timer loops; no loop, at most one callback |
| `TimerTheorems.DriftFree` | libsocket/mytimer.hpp:32-44 | the k-th callback belongs to deadline t0 + k * msTime and does not run before it |
| `TimerTheorems.NoMoreThanElapsed` | libsocket/mytimer.hpp:32-44 | there are never more callbacks than whole periods that have passed |
| `TimerTheorems.BornAtCreation` | libsocket/mytimer.hpp:17-27 | t0 is the time of construction, the first deadline one period later, the timer loops if it was told to, and t0, period and that argument stay |
| `TimerTheorems.IdsIdentify` | libsocket/mytimer.hpp:24-25 | ids are pairwise distinct and the registry maps each to its timer and nothing else |
| `TimerTheorems.CreationEndsIff` | libsocket/mytimer.hpp:67-81 | a constructor's `uuid` ends if and only if fewer than 2^32 - 1 timers were ever created |
| `TimerTheorems.IdsRunOut` | libsocket/mytimer.hpp:67-81 | a state in which no timer can be constructed any more is reachable |
| `TimerTheorems.ProbesAreBounded` | libsocket/mytimer.hpp:67-81 | in every run, for any start of the counters, the constructions of n timers together make at most n(n+3)/2 probes |
| `TimerTheorems.ConstructionsAreQuadratic` | libsocket/mytimer.hpp:24-25 | n constructions, n at most 2^31, whose counters start at 0 receive the ids 0..n-1 and make exactly n(n+1)/2 probes |
| `TimerTheorems.CancelIsLocal` | libsocket/mytimer.hpp:101-105 | `cancelById` changes only the timer that returned the id |
| `TimerTheorems.CancelBound` | libsocket/mytimer.hpp:53-59 | after `cancel` at most one more callback in any continuation, none unless the completion was queued, none when cancelled from the own callback |
| `TimerTheorems.CancelRaceIff` | libsocket/mytimer.hpp:53-59 | a callback after `cancel` is possible if and only if its completion was already queued |
| `TimerTheorems.CancelRaceHappens` | libsocket/mytimer.hpp:53-59 | from the empty loop any timer can reach that point, be cancelled, and call back once more |
| `TimerProgress.PossibleSteps` | libsocket/mytimer.hpp:32-45 | what can happen to a timer is decided by its one wait: it comes due at any time from its deadline on, also during a callback, and a completion is handled whenever no callback runs |
| `TimerProgress.CallbacksAreTheHandlers` | libsocket/mytimer.hpp:33-35 | the recorded callbacks are exactly the handlers that began in the run, each at the time that had passed then |
| `TimerProgress.LoopingNeverStops` | libsocket/mytimer.hpp:32-45 | from every reachable state a looping timer can call back n times more for every n, and exactly at t0 + k * msTime each time if it is not late |
| `Drain.StepsAreBounded` | libsocket/mytimer.hpp:32-59 | timers that cancel themselves at their n-th callback allow only a bounded number of handlers |
| `Drain.DrainsExactly` | examples/example_timer.lua:6-14 | whenever `run()` has no work left, each timer has run its callback exactly n times |
| `Drain.CanDrain` | examples/example_timer.lua:6-14 | from every state on the way the loop can reach the end of `run()` within the bound |
| `Drain.CreationExtends` | libsocket/mytimer.hpp:17-27 | constructions before `run()` give a set of timers the drain theorems apply to |
| `Drain.DrainedMeansStopped` | libsocket/mytimer.hpp:32-45 | a loop without work left has no timer that still loops |
| `Drain.CancelledStepsAreBounded` | libsocket/mytimer.hpp:32-59 | once every timer has been cancelled, by anyone, and none is created, only a bounded number of handlers can run |
| `Drain.CanDrainCancelled` | libsocket/mytimer.hpp:32-59 | and `run()` can then return within four handlers a timer |
| `TimerObjects.Uuid` | libsocket/mytimer.hpp:67-81 | the loop over the signed counter ends with the first free id in its order, after the number of turns that the event loop charges to a construction, and leaves the counter behind it |
| `TimerObjects.Incremented` | libsocket/mytimer.hpp:70 | `fetch_add` on the signed counter is one step of the unsigned one |
| `TimerObjects.Reduced` | libsocket/mytimer.hpp:70-71 | the reduction through `unsigned` changes only -1, to 0 |
| `TimerObjects.MyTimer.constructor` | libsocket/mytimer.hpp:17-27 | a new timer is the entry of the value model, under an id not used before, and its counter stands behind that id |
| `TimerObjects.MyTimer.OnWait` | libsocket/mytimer.hpp:33-35 | the completion leaves the queue, and calls back exactly on success |
| `TimerObjects.MyTimer.AfterCallback` | libsocket/mytimer.hpp:36-39 | a looping timer moves its deadline by one period and waits again; another does nothing |
| `TimerObjects.MyTimer.Cancel` | libsocket/mytimer.hpp:53-55 | no more looping, pending waits aborted, queued ones kept |
| `TimerObjects.MyTimer.Retain` | libsocket/mytimer.hpp:48-50 | the registry keeps a timer already under the id |
| `TimerObjects.Tables.CancelById` | libsocket/mytimer.hpp:101-105 | the registered timer is cancelled and no other timer changes |
| `TimerObjects.NewTimer` | libsocket/socketcore.cpp:93-98 | the returned id is new and registered for the new timer; other entries stay |
| `Database.DataBase.Open` | libsocket/database.hpp:44-51 | one query is sent; a result is opened or the error is thrown |
| `Database.DataBase.FetchRow` | libsocket/database.hpp:43-65 | the in-place cursor is the step `Fetch`; at most one result is open and all earlier ones are freed; after a row the result is open |
| `Database.OpenCursorReads` | libsocket/database.hpp:54-64 | an open cursor gives its rows in order and then null, ignoring all query texts |
| `Database.CursorIsCorrect` | libsocket/database.hpp:43-65 | for every oracle and sequence of calls the replies and the texts sent are those of whole results read one after the other |

## Left out

- `Socket::connect`: its handler starts the session and calls back like the one of `accept`, without re-arming.
- `Socket::read` and `Socket::write` as data paths: they work on JSON trees, and nothing shown fills `connections_`; the release of the id is modelled.
- `Session::setCallBack` and `callBack`: a table lookup; a name without a callback ends the process.
- The key and room getters and setters, `message::serialize`, and the Lua bindings: trivial members or library calls.
- `db_query` between calls of `fetch_row`, `fetch_fields` and `num_fields`, and the table that `db_fetch_row` fills.
- The destructors: closing the socket of a session, and a result still open when a `DataBase` is destroyed.
- Exceptions thrown by a callback, and a callback that calls `run()` again.
- libsocket/header.hpp: an older header definition that no other file includes.
- Overlapping `async_write`s of one session, and the lifetime of the buffer they are given: see the assumptions.
- What happens after a length over 1024: undefined in the source, a final state in the model.
