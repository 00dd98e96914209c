# Verified model of libNativeStreaming

libNativeStreaming streams messages over WebSocket connections. Its own logic is a set of
asynchronous state machines on top of Boost: a write queue with deadlines, a callback-driven read
sequence over a growing buffer, connection attempts with a timeout, an accept loop, a heartbeat, and a
codec for Basic credentials. This project models these in Dafny and proves what they promise, over all
inputs and over all runs.

## How it is organised

Each state machine comes in two parts. A module of values (`WriteQueue`, `ReadSequence`,
`ConnectionAttempts`, `Heartbeat`, `AcceptLoop`) says what one handler does to the state, defines runs as
arbitrary sequences of events (an event that cannot happen leaves the state alone), and proves the
theorems. A class with the fields and methods of the source (`AsyncWriter`, `AsyncReader`, `Client`,
`Session`, `Server`) updates its state in place; the contract of every method ties the new state to the
old one through that module, so the theorems are about what the methods do.

- `Common.dfy`: sequences of sequences and other small vocabulary
- `WriteQueue.dfy`, `AsyncWriter.dfy`: write queue, deadlines, timeout latch
- `ReadSequence.dfy`, `AsyncReader.dfy`: read sequences and the recursive parse that they refine
- `Framing.dfy`: the header/payload client of the message tests
- `EndToEnd.dfy`: producers, writer, byte pipe, reader and client composed
- `Progress.dfy`: everything that has been scheduled can still arrive
- `Base64.dfy`, `Base64Standard.dfy`, `Authentication.dfy`: base64, its agreement with the standard, Basic credentials
- `ConnectionAttempts.dfy`, `Client.dfy`: overlapping connection attempts
- `ConnectionTimeouts.dfy`: when connect() keeps the promise of its timeout, and what a timeout decides
- `Heartbeat.dfy`, `Session.dfy`: the heartbeat
- `AcceptLoop.dfy`, `Server.dfy`: the accept loops

## Assumptions

- Every completion handler runs as one atomic step, as with one thread per `io_context`
  (test/test_base.hpp:34-48); the deadline timer and the read completions are not wrapped by a strand
  (src/async_writer.cpp:159, src/async_reader.cpp:92-96). Posted handlers run in the order of the posts.
- The clock does not go back. A timer expires at or after its expiry; its callback may run any time
  later. Cancelling reaches a wait or an operation that is still outstanding, not one that has
  completed and whose handler is queued. Callbacks of expired timers run in the order of expiry.
- A successful `async_write` has transferred all bytes of its buffers; one that fails may have transferred
  any part of them. A successful `async_read` with `transfer_at_least(n)` has brought at least n bytes,
  possibly more; one that fails may have brought some. Bytes arrive in order.
- Task sizes are positive, as the constructors of the tasks assert.
- The message header holds the size in the byte order of a little-endian host.
- The base64 routines of Boost are written from section 4 of RFC 4648 and decode up to the first
  character outside the alphabet, in line with test/test_base64.cpp:16-42. Buffer sizes are
  4*ceil(n/3) for encoding and 3*floor(n/4) for decoding. `boost::split` compresses runs of delimiters
  and keeps empty tokens at the ends; white space is that of the "C" locale.
- The authorization field reaches the server as the client has set it.

## Where code and documentation part ways

- include/native_streaming/client.hpp:47-48 promises that an attempt is cancelled after its timeout. That is
  never certain: the current operation may have succeeded just before, which cancelling cannot undo
  (`RaceIsAlwaysPossible`, `TimeoutDecides`). Apart from this race, a call of `connect()` keeps the promise in
  every continuation whose later calls are calm, exactly if it is calm itself (`PromiseKeptIffCalm`): no other
  attempt is in flight and no timer callback of an earlier attempt is still to run. Otherwise the attempt can
  lose its timer, or its timeout finds an empty slot and cancels nothing (`PromisesBrokenFromInit` has a run
  for each). A later call that is not calm takes the timer of a running attempt away
  (`SecondCallBreaksPromise`).
- Section 2 of RFC 7617 allows colons in the password; the parser drops the password's leading colons and
  cuts it at the first one after them (`HeaderRoundTrip`, `PasswordIsCutAtColon`).
- A restarted server may run several accept loops on one acceptor (`RestartsAddLoops`); there is one exactly
  if nothing of the earlier start is left over (`SingleLoopIffNothingLeft`).

## Model

| member | source | states |
|---|---|---|
| AsyncWriters.AsyncWriter.constructor | src/async_writer.cpp:9-16 | a new writer is in the initial state of the write queue: nothing queued, no timeout |
| AsyncWriters.AsyncWriter.ScheduleWrite | src/async_writer.cpp:18-29 | scheduling only posts the batch; nothing else changes before its handler runs |
| AsyncWriters.AsyncWriter.QueueBatchWrite | src/async_writer.cpp:46-70 | a batch is refused after a timeout, sets the latch if it is strictly late, and otherwise is queued and written at once if the queue was empty |
| AsyncWriters.AsyncWriter.DoWrite | src/async_writer.cpp:86-106 | one write with the buffers of all tasks of the front batch in order, none after a timeout |
| AsyncWriters.AsyncWriter.WriteDone | src/async_writer.cpp:108-144 | completes the front batch, tells success or error, and only after a success starts the next write |
| AsyncWriters.AsyncWriter.CallHandlers | src/async_writer.cpp:110-116 | the handler of every task of the batch is called once: as many calls as tasks, the i-th that of the i-th task |
| AsyncWriters.AsyncWriter.CancelDeadlineTimer | src/async_writer.cpp:118-120 | cancelling removes an armed wait and leaves a queued callback |
| AsyncWriters.AsyncWriter.OnTimeoutReached | src/async_writer.cpp:146-153 | the latch is set and the callback called the first time only |
| AsyncWriters.AsyncWriter.ExpireTimer | src/async_writer.cpp:157-160 | an armed timer expires at or after its deadline, not before |
| AsyncWriters.AsyncWriter.OnDeadlineTimer | src/async_writer.cpp:159-170 | only a wait that was not aborted counts as a timeout |
| AsyncWriters.AsyncWriter.Deliver | src/async_writer.cpp:18-172 | every event moves the object as the write queue says and keeps its invariant |
| WriteQueue.FifoConservation | src/async_writer.cpp:46-131 | in every run, errors and timeouts included: accepted = completed ++ queue, issued = completed ++ front if in flight, and the handlers called are those of the completed batches, once each and in order |
| WriteQueue.EveryTaskIsHandled | src/async_writer.cpp:86-116 | task by task, in every run: one handler call for each task of the completed batches, in order, and the k-th write has the buffers of all tasks of the k-th accepted batch |
| WriteQueue.AcceptedInScheduleOrder | src/async_writer.cpp:18-70 | the scheduled batches are those of the scheduleWrite calls; accepted ones are a prefix of them, and nothing is dropped without a timeout |
| WriteQueue.SingleFlight | src/async_writer.cpp:64-106 | at most one write is outstanding, and it is that of the queue front |
| WriteQueue.StallCharacterisation | src/async_writer.cpp:122-143 | queued work without an outstanding write exists exactly if some completion failed, or came after the timeout, while other batches were queued |
| WriteQueue.StalledForever | src/async_writer.cpp:64-69 | once stalled, no sequence of events issues or completes another write or calls another task handler |
| WriteQueue.TimeoutLatch | src/async_writer.cpp:48-89 | after a timeout nothing is issued or accepted any more, at most the outstanding batch completes, and the callback has been called once |
| WriteQueue.TimedOutOnce | src/async_writer.cpp:146-153 | in every run the callback has been called exactly once if the latch is set and never otherwise |
| WriteQueue.LatchCause | src/async_writer.cpp:54-60 | the latch is set exactly if some batch arrived strictly after its deadline or some expired timer callback ran |
| WriteQueue.TimeoutSoundness | src/async_writer.cpp:51-172 | if every batch arrives in time and leaves the queue before its deadline, there is no timeout and nothing is refused, however late callbacks run |
| WriteQueue.OverdueTimesOut | src/async_writer.cpp:155-172 | a batch that is still queued at its deadline, in whatever place, times out when its timer expires and the callback runs |
| WriteQueue.DeadlineTimesOut | src/async_writer.cpp:51-172 | any queued batch with a deadline times out if it stays queued until then |
| WriteQueue.TimeoutPossibleIff | src/async_writer.cpp:155-172 | timers alone can bring a timeout about if and only if some queued batch has reached its deadline or an expired callback is still to run |
| WriteQueue.Drain | src/async_writer.cpp:122-131 | from every healthy state k successful completions complete exactly the k oldest batches and leave it healthy |
| WriteQueue.PostedAfterDrain | src/async_writer.cpp:64-69 | after as many completions as batches, the oldest posted batch, unless late, is written at once, after all earlier ones |
| WriteQueue.WriteAfterDrain | src/async_writer.cpp:64-69 | the same when one more batch is scheduled, whatever backlog is posted |
| AsyncReaders.AsyncReader.constructor | src/async_reader.cpp:6-13 | a new reader is idle with an empty buffer |
| AsyncReaders.AsyncReader.ScheduleRead | src/async_reader.cpp:29-44 | the entry task becomes pending and its handler is posted |
| AsyncReaders.AsyncReader.RunPosted | src/async_reader.cpp:40-43 | a sequence starts on whatever earlier sequences have left in the buffer |
| AsyncReaders.AsyncReader.DoRead | src/async_reader.cpp:90-97 | does to a buffer what the recursive parse does, then waits for the exact deficit or ends; terminates for every handler automaton |
| AsyncReaders.AsyncReader.Read | src/async_reader.cpp:15-27 | the same for any number of buffered bytes, whether or not the network is needed |
| AsyncReaders.AsyncReader.ReadDone | src/async_reader.cpp:56-88 | the handler gets exactly the requested bytes, which are there, and the rest is parsed on; an error only ends the sequence |
| AsyncReaders.AsyncReader.Consume | src/async_reader.cpp:108-111 | the consumed bytes leave the buffer, which holds at least as many |
| AsyncReaders.AsyncReader.OnReadCompleted | src/async_reader.cpp:25-25 | all bytes of an arrival, overshoot and bytes before an error included, are kept |
| ReadSequence.ParseConserves | src/async_reader.cpp:56-88 | delivered chunks followed by the rest are the parsed bytes |
| ReadSequence.ParseStops | src/async_reader.cpp:15-27 | parsing stops only at the end of the sequence or for want of bytes |
| ReadSequence.ParseFollowsHandlers | src/async_reader.cpp:56-88 | each call is of the handler of the current task with exactly the bytes that it asks for, and the task returned is the next one |
| ReadSequence.ParseAppend | src/async_reader.cpp:15-97 | parsing a ++ b is parsing a and resuming with b, for every handler automaton |
| ReadSequence.ByteConservation | src/async_reader.cpp:17-116 | over any run of sequences and errors, bytes received = bytes delivered ++ buffer, and the alive callback was called once per delivery |
| ReadSequence.WaitsForExactDeficit | src/async_reader.cpp:17-26 | a waiting reader cannot serve its task from the buffer and asks for exactly what is missing |
| ReadSequence.ScheduledReadIsServed | src/async_reader.cpp:29-44 | the handler given to scheduleRead is called first, with exactly the given number of buffered bytes, or the reader waits for what is missing with that task pending |
| ReadSequence.ArrivalIsServed | src/async_reader.cpp:56-88 | the bytes that end a wait are handed to the pending handler together with the buffered ones, exactly as many as it asked for |
| ReadSequence.StartedAreScheduled | src/async_reader.cpp:29-44 | the read sequences of a run are those that were scheduled, each with its own task, in order |
| ReadSequence.ReceivedAreArrived | src/async_reader.cpp:24-27 | no byte that a read has brought is lost, overshoot and bytes before an error included |
| ReadSequence.Refinement | src/async_reader.cpp:15-97 | after any run of read sequences, arrivals and errors, the handler calls, the pending task and the buffer are those of the simple parse of all received bytes |
| ReadSequence.FragmentationIndependence | src/async_reader.cpp:15-97 | runs of the same sequences on the same bytes agree in all handler calls and in their position, however the bytes were cut |
| Framing.HeaderRoundTrip | test/test_messages.cpp:229-234 | the size read from a header is the size written, for all sizes below 2^64 |
| Framing.HeaderIsLittleEndian | test/test_messages.cpp:229-234 | the eight header bytes with the weights 1, 256, 256^2 up to 256^7 add up to the size |
| Framing.ParseFrames | test/test_messages.cpp:229-251 | on any prefix of the frames the client gets exactly the messages that are complete in it, up to the number it wants |
| Framing.DeficitWithinFrames | test/test_messages.cpp:229-251 | the client never asks for more bytes than the remaining frames hold |
| Framing.ZeroSizeEnds | test/test_messages.cpp:229-251 | a header of size zero ends the sequence and what follows stays unread |
| EndToEnd.CleanIsFramed | src/async_writer.cpp:86-106 | what is on the link before the first failed write is a prefix of the frames of the scheduled messages |
| EndToEnd.MessagesArriveInOrder | src/session.cpp:101-109 | for any producers, deadlines, interleaving, fragmentation and errors: the client has first of all been given the first k scheduled messages, with k the number complete in what it has seen of the bytes from before the first failed write; all k have been accepted, so no refused one is among them; nothing else is delivered as long as it sees no later bytes; each producer's messages keep their order |
| EndToEnd.AcceptedMessagesArrive | src/session.cpp:101-109 | once the client has seen all bytes of the accepted batches it has been given exactly the accepted messages, timeouts or not |
| EndToEnd.AllMessagesArrive | test/test_messages.cpp:298-423 | without timeout or error, when nothing is outstanding every scheduled message has been delivered |
| EndToEnd.ReaderNeverStarves | src/async_reader.cpp:24-25 | until a write fails, what a waiting reader is missing is always contained in accepted batches, unless it has received all their bytes |
| Progress.EverythingCanArrive | test/test_messages.cpp:298-423 | no deadlock: from every reachable state without timeout or error some continuation delivers everything scheduled so far and leaves all quiet, if and only if no posted batch is late already |
| Base64.Encode | src/utils/base64.cpp:6-17 | the encoding, within its pre-sized buffer, and it decodes to the input |
| Base64.Decode | src/utils/base64.cpp:19-30 | what the library routine yields; for every encoded string with any extra padding, the original |
| Base64.EncodeInto | src/utils/base64.cpp:13-13 | writes the encoding to the front of the buffer and returns its length |
| Base64.DecodeInto | src/utils/base64.cpp:26-26 | writes the decoded bytes to the front of the buffer and returns their number |
| Base64.RoundTrip | test/test_base64.cpp:8-27 | decoding an encoded string followed by any number of padding characters gives the original, for all byte strings |
| Base64.SizesFit | src/utils/base64.cpp:8-27 | on such strings neither routine leaves the buffer that was sized for it, and the encoder fills its own exactly |
| Base64.DecodedFitsIff | src/utils/base64.cpp:19-30 | the decoded bytes fit the buffer sized by the input if and only if the leading letters form whole groups of four, one extra letter aside, or the input is long enough to complete the last group |
| Base64.UnpaddedFitsIff | src/utils/base64.cpp:19-30 | an encoding without its padding decodes to the same bytes, which fit the sized buffer if and only if there was no padding to leave out |
| Base64.OutputAlphabet | src/utils/base64.cpp:6-17 | the output is letters of the alphabet and then at most two characters '=' |
| Base64Standard.ValueInvertsAlphabet | src/utils/base64.cpp:26-26 | a character is worth v if and only if it is the one at place v of the alphabet of RFC 4648 |
| Base64Standard.EncodedIsStandard | src/utils/base64.cpp:6-17 | character by character: the letters of the alphabet for the groups of six bits, ceil(4n/3) of them, then '=' up to a multiple of four |
| Base64Standard.DigitsAreLeading | src/utils/base64.cpp:19-30 | decoding uses the leading characters of the alphabet and stops at the first other one |
| Base64Standard.DecodedIsStandard | src/utils/base64.cpp:19-30 | byte by byte: the whole octets in the bits of those characters |
| Authentications.HeaderCarriesJoined | src/authentication.cpp:59-68 | the header splits into the scheme and one token that decodes to user name, colon and password |
| Authentications.HeaderText | src/authentication.cpp:59-68 | the header is "Basic " and the encoding of user name, colon and password, and empty for an anonymous object |
| Authentications.HeaderRoundTrip | src/authentication.cpp:19-68 | parsing an encoded header always succeeds, and returns the credentials if and only if neither part contains a colon |
| Authentications.PasswordIsCutAtColon | src/authentication.cpp:31-37 | for all passwords and every user name without colon: the password comes back without its leading colons and cut before its next one |
| Authentications.UsernameIsCutAtColon | src/authentication.cpp:31-37 | a user name is cut before its first colon and what follows goes to the password, for all credentials |
| Authentications.FromHeaderIff | src/authentication.cpp:19-42 | for all headers: credentials are returned if and only if the header is "Basic", white space and a token, and the decoded token is the user name, colons, the password, and nothing or a further colon |
| Authentications.RejectedIff | src/authentication.cpp:19-42 | a header is rejected if and only if its first two tokens are not "Basic" and one that decodes to something with a colon |
| Authentications.Canonicalisation | src/authentication.cpp:19-42 | every accepted header gives an object whose own header parses back to it |
| Authentications.UnpaddedHeader | src/authentication.cpp:19-42 | a header without the padding names the same credentials, and its bytes fit the sized buffer only if there was no padding |
| Authentications.AcceptedAndTooLong | src/authentication.cpp:19-42 | the header "Basic OmE" is accepted and its two bytes do not fit their buffer of none |
| Authentications.AuthenticatorSees | src/server.cpp:165-181 | for every field: the authenticator sees the credentials that the header names, and an anonymous object if and only if there is no field or it is rejected |
| Authentications.WireAgreement | src/server.cpp:165-181 | the server's authenticator sees the client's credentials if and only if the client is anonymous or both parts are free of colons; only an anonymous client sends no field |
| Clients.Client.constructor | src/client.cpp:7-31 | a new client has no attempt, no stream and no timer |
| Clients.Client.Connect | src/client.cpp:39-60 | the one timer is armed anew and one more attempt starts to resolve; other attempts go on |
| Clients.Client.OnConnectionTimeout | src/client.cpp:62-71 | outstanding resolves and the operation on the slot's stream are aborted, completed ones are not, and the slot is emptied |
| Clients.Client.OnResolve | src/client.cpp:73-104 | a failure is reported once and cancels the timer, a success puts a new stream into the slot |
| Clients.Client.OnConnect | src/client.cpp:106-141 | a failure is reported once and cancels the timer, a success goes on to the handshake on the same stream |
| Clients.Client.OnUpgradeConnection | src/client.cpp:143-182 | cancels the timer and ends the attempt: aborted counts as connect failure, a lost endpoint is silent, a session empties the slot |
| Clients.Client.Deliver | src/client.cpp:39-190 | every event moves the object as the attempt machine says and keeps its invariant |
| ConnectionAttempts.AttemptConservation | src/client.cpp:39-182 | for any overlapping attempts: connects = in flight + resolve failures + connect failures + handshake failures + sessions + lost endpoints, and an attempt that is over, and no other, has reported its end exactly once |
| ConnectionAttempts.HandlerReports | src/client.cpp:73-182 | what each handler reports for each stage and result, and that nothing else is ever reported |
| ConnectionAttempts.FailedOperationReports | src/client.cpp:73-160 | in every continuation an attempt whose operation has failed has not reported or has reported exactly once: a resolve failure, a connect failure (an aborted handshake included) or a handshake failure; its handler makes that report |
| ConnectionAttempts.SuccessfulHandshakeReports | src/client.cpp:143-182 | in every continuation, timeouts included, an attempt whose handshake has succeeded reports at most once: a session on its own stream if the endpoint is known, the silent loss otherwise |
| ConnectionAttempts.SuccessGoesOn | src/client.cpp:88-141 | a success before the handshake reports nothing and goes on, with a new stream in the slot or on the same stream |
| ConnectionAttempts.OnlyExpiredTimersCancel | src/client.cpp:62-71 | an aborted timer callback changes nothing, expired ones run in order |
| ConnectionAttempts.TimeoutSparesSessions | src/client.cpp:62-190 | in every run the slot that a timeout cancels never holds the stream of a session, and sessions do not share streams |
| ConnectionTimeouts.PromiseKeptIffCalm | include/native_streaming/client.hpp:43-49 | in every continuation whose later calls of connect() are calm, the new attempt keeps its own timeout and an operation outstanding at that time is cancelled, if and only if the call is calm: no other attempt in flight and no timer callback still to run |
| ConnectionTimeouts.LaterCallTakesTimer | src/client.cpp:43-51 | a later call that finds the attempt running with its timer armed takes the timer away: whatever follows, it never expires for this attempt and no timeout of it is handled |
| ConnectionTimeouts.SecondCallBreaksPromise | src/client.cpp:39-60 | two calls in a row leave the first attempt without a timeout, from every state |
| ConnectionTimeouts.CalmClientKeepsPromises | include/native_streaming/client.hpp:43-49 | a client whose calls are all calm keeps the promise for every attempt, over whole runs |
| ConnectionTimeouts.SparedIffNothingPending | src/client.cpp:39-71 | in every continuation whose later calls are calm, the timeout of another attempt never touches the new one, if and only if no timer callback is still to run when it starts, whatever else is in flight |
| ConnectionTimeouts.OverlapBreaksPromise | src/client.cpp:39-104 | the end of any other attempt in flight leaves the new attempt without a timer |
| ConnectionTimeouts.StaleCallbackBreaksPromise | src/client.cpp:62-71 | callbacks meant for earlier attempts empty the slot, so that the new attempt's own timeout cancels nothing and it still becomes a session |
| ConnectionTimeouts.PromisesBrokenFromInit | src/client.cpp:39-71 | both situations arise in a client that has called connect() once |
| ConnectionTimeouts.NeverSessionIffDoomed | src/client.cpp:73-190 | from any state an attempt never becomes a session, however often connect() is called later, if and only if it has failed or a failure of its operation is queued |
| ConnectionTimeouts.TimeoutDecides | src/client.cpp:62-71 | for the attempt of a calm connect(), at any point of a calm run: once its timeout is handled no continuation at all, later calls included, yields a session, if and only if its current operation had not already succeeded |
| ConnectionTimeouts.RaceIsAlwaysPossible | src/client.cpp:62-104 | after every calm connect() a run exists in which the timeout comes just after a success, cancels nothing and a session follows |
| ConnectionTimeouts.TimedOutAttemptReports | test/test_connection.cpp:37-74 | for the attempt of a calm connect() whose timeout finds its operation outstanding: in every continuation it has not reported or has reported exactly once, a resolve failure if it was resolving and a connect failure otherwise, an aborted handshake included; its handler ends it in that way |
| Sessions.Session.constructor | src/session.cpp:8-28 | a new session sends no pongs |
| Sessions.Session.StartConnectionActivityMonitoring | src/session.cpp:145-166 | sets the period and issues the first pong |
| Sessions.Session.SchedulePong | src/session.cpp:126-143 | one pong if the stream is open, none otherwise |
| Sessions.Session.OnPongWritten | src/session.cpp:134-142 | only a written pong arms the timer |
| Sessions.Session.RestartHeartbeatTimer | src/session.cpp:111-124 | the timer expires one period from now, replacing any earlier wait |
| Sessions.Session.OnHeartbeatTimer | src/session.cpp:115-123 | an aborted wait is ignored, an expired one issues a pong |
| Sessions.Session.Deliver | src/session.cpp:111-166 | every event moves the object as the heartbeat machine says, and no more heartbeats become alive than were started |
| Heartbeat.TokensBoundedByStarts | src/session.cpp:111-166 | pongs in flight, armed timer and pending callbacks together never exceed the number of Start events of the run |
| Heartbeat.RateBound | src/session.cpp:111-166 | with one start and period P > 0, pongs are at least P apart and at most floor((t - t0)/P) + 1 by time t, and at most one token is alive |
| Heartbeat.ExactlyOneAlive | src/session.cpp:111-166 | after one start on an open stream, as long as no pong fails, exactly one heartbeat is alive |
| Heartbeat.NextPongAfterPeriod | src/session.cpp:111-143 | the next pong is issued if and only if a period has passed since the last one was written |
| Heartbeat.NeverStops | src/session.cpp:111-166 | from every such state the heartbeat can beat again |
| Heartbeat.PongIssuedIff | src/session.cpp:111-143 | a pong is issued if and only if monitoring starts or an expired callback runs, on an open stream |
| Heartbeat.FailedPongEnds | src/session.cpp:134-142 | a pong that could not be written ends its heartbeat until the next start |
| Heartbeat.ClosedIsSilent | src/session.cpp:126-130 | a closed stream gets no pong any more, whatever happens |
| Servers.Server.constructor | src/server.cpp:8-19 | two separate closed acceptors |
| Servers.Server.Start | src/server.cpp:27-88 | sets up each acceptor that can be, leaves an open one alone, closes a failing one; succeeds exactly if one was set up |
| Servers.Server.StartTcpAccept | src/server.cpp:90-101 | one more accept if the acceptor is open |
| Servers.Server.StopTcpAccept | src/server.cpp:103-107 | closing aborts the pending accepts and nothing else |
| Servers.Server.Stop | src/server.cpp:109-114 | both acceptors are closed |
| Servers.Server.OnAcceptTcpConnection | src/server.cpp:116-153 | an abort ends the loop, another error accepts again, a connection moves the loop on to reading its request |
| Servers.Server.OnRequestRead | src/server.cpp:145-152 | the loop goes on if the acceptor is open |
| Servers.Server.Deliver | src/server.cpp:27-153 | every event moves the two acceptors as the server machine says |
| AcceptLoop.LoopsBounded | src/server.cpp:27-153 | outstanding accepts and request reads never exceed the successful starts, an open acceptor always has a loop, and after a single start exactly one |
| AcceptLoop.StartAddsLoop | src/server.cpp:34-83 | a start succeeds if and only if the acceptor was closed and can be set up, and then adds one loop; on an open acceptor it changes nothing, and a failing one leaves it closed |
| AcceptLoop.StopAbortsAccepts | src/server.cpp:103-114 | stopping loses no handler: pending accepts end as aborted ones, accepted connections and requests stay |
| AcceptLoop.WindsDown | src/server.cpp:103-153 | until the next start a stopped acceptor begins no accept and gains no loop |
| AcceptLoop.LoopsConstant | src/server.cpp:116-153 | between starts and stops no loop is lost or gained |
| AcceptLoop.SingleLoopIffNothingLeft | src/server.cpp:27-153 | a restarted acceptor keeps a single loop if and only if no request read and no unhandled accept of an earlier start is left over |
| AcceptLoop.RestartsAddLoops | src/server.cpp:27-153 | the bound is reached: for every k some run with k + 1 starts has k + 1 loops |
| AcceptLoop.AcceptorsAreIndependent | src/server.cpp:27-153 | in every run of the server each acceptor is in a run of its own |
| AcceptLoop.ServerLoops | src/server.cpp:27-153 | in every run of the server both acceptors obey the bounds on loops, and an open one that was started once has exactly one |

## Left out

- Boost itself: TCP, WebSocket framing, HTTP parsing and the resolver are events and a byte pipe.
- Threads, shared and weak pointers, destructors: all objects are alive and handlers are atomic.
- AsyncReaders.AsyncReader.ScheduleRead: excludes a call while a read sequence is active. The source does not check for it: the pending task would be overwritten and a second read started on the same stream.
- Base64.Decode: requires that the decoded bytes fit the buffer sized by the input's length, because what the library routine does otherwise is not part of this model. `DecodedFitsIff` says which inputs these are; all encoded strings with any extra padding are among them.
- Authentications.FromHeader: decodes every token, also one whose bytes would not fit that buffer (`AcceptedAndTooLong`); what the source does with such a token is not part of this model.
- A message header that announces size zero: it cannot make a read task; the client of `Framing` ends its sequence there.
- An asynchronous read that reports success with fewer bytes than asked for.
- The content of the request buffer shared by the two acceptors, upgrade and session creation on the server.
- `Session::close`, activity callbacks on control frames, stream options, user-agent decoration, endpoint addresses, logging and build files.
