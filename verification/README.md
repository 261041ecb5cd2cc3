# A verified model of the chat server

The repository is a chat server: a libev event loop, worker threads, a framed protocol of its own over
TLS, and MongoDB as its store. This project models five connected parts of it in Dafny and proves what
they promise over all inputs, all runs and all interleavings.

* **Frames on the wire.** `VarLength` (payload sizes), `Fragment` (cutting a message), `Frames` (the
  wire format), `Reader` (the resumable parser that is fed by short reads), `ReaderExact` (which frames
  it reads), `ReaderView` (what its state depends on), `ReaderSafety` (which streams lead it out of its
  memory), `Reassembly` and `ReassemblyExact` (gathering frames into messages), `ReassemblyRouting` (which
  of them the workers get), `Buffers` and `Connections` (the buffer, write-queue and read-side objects, with
  their loops and in-place memory). The main result is
  that fragmenting, framing, joining into one byte stream and reading back with the intended look-ahead
  under any schedule of short reads never yields anything but the messages, in order
  (`Reassembly.EndToEndIntended`), and exactly which lists arrive whole: with that look-ahead
  (`ReassemblyExact.IntendedArrives`) and as written (`ReassemblyExact.WrittenArrives`).
* **Work hand-off.** `Pipeline` is the event loop and any number of workers as interleaved critical
  sections; `PipelineRuns` has what holds over whole runs, `PipelineProgress` that nobody waits for ever,
  `PipelineDrain` that responses get out, `PipelineResponses` that these are all of them, each once,
  `PipelineReceiver` what the other end of a connection makes of
  what is sent.
* **Sessions.** `SessionId` (the counter), `SessionGate` (who gets through, in place and as functions),
  `Sessions` (clients, event loop, workers and store together), `SessionHistory` (what follows from the
  answers in a run alone).
* **Expiry.** `Expiry` (the ping list as a value, and its runs), `PingList` (the same list in place, with
  iterators kept in the nodes).
* **Friendships and messages.** `Friendship` (the two workflows as sequences of durable writes that may
  stop anywhere), `FriendshipShape` and `FriendshipRuns` (what the recorded status is worth),
  `FriendshipVersions` (version bumps), `FriendshipConsent` (who agreed, and what can still move),
  `FriendshipCallers` (whose operations these were, and the error codes), `Messages` (numbering by many
  workers, what the numbers stand for, and paging).

`Options` holds the one datatype they share.

## How the pieces correspond to the program

Code that changes things in place is a class or a loop here, proved against functions on values; the
functions carry the theorems. `Buffer.SocketRead` equals `Reader.ReadCall`, `ReadIO.ReadCallback` equals
`Reassembly.Callback`, `Node.Dispatch` equals `SessionGate.Dispatched`, `PingList.Server` equals the
functions of `Expiry`, `Friendship.Mongo` equals `Friendship.Perform`. Threads are state machines whose
steps are the critical sections.

Assumptions, each of them visible in a definition:

* A read returns between 1 and the count asked for, says "later" with nothing changed, or fails. SSL_read
  takes its count as an int: a negative one fails with 20008 whatever has arrived. Asking for no bytes never
  succeeds: it fails with 20007 when something has arrived and is "later" otherwise. SSL_ERROR_WANT_CONNECT
  and SSL_ERROR_WANT_ACCEPT, which the code takes for zero bytes read, do not come up on an accepted
  connection.
* A write takes a whole buffer or nothing, since partial writes are off (yijian/libev_server.cxx:297).
* A buffer's memory starts with arbitrary contents. Its scalar fields start at zero.
* The producer's flag in `noti_threads` is not initialised, nor is a connection's session id: both start
  arbitrary.
* A conforming client starts from the id in its connect response, advances it by the server's own rule on
  numbered types, stamps 0 on the others, and sends nothing numbered while it waits for a connect
  response (`Sessions.MaySend`).
* Every database call is one durable step. User ids hold no `_`.
* The clock of the ping list does not go back, where a theorem says so.

## Where the code and its intention differ

* A frame with one payload byte is as long as the bytes that are read ahead. If they arrive together
  nothing is left to ask for, the flag is never set, and the message is missed: at either offset
  (`ReaderExact.OneByteIsMissed`). Messages whose size is one above a multiple of 1019 end in such a frame.
* The parser looks for the last length byte from offset 4 but decodes from offset 3. The proofs carry the
  offset as a parameter. With 3, the intention, a frame is read under every schedule if and only if its
  payload has at least two bytes (`ReaderExact.IntendedReadsExactly`), and a list of messages arrives if and
  only if no size is one above a multiple of 1019 (`ReassemblyExact.IntendedArrives`).
* With 4, the code as written, a frame is read under every schedule if and only if its payload has 2 to 127
  bytes and starts with a byte below 128 (`ReaderExact.WrittenReadsExactly`), and under every schedule on
  which no read stops inside a two-byte length if and only if it has two bytes or more and is at least 128
  bytes long or starts with a byte below 128 (`ReaderExact.WrittenReadsUnlessStopped`). The same conditions,
  asked of every frame of a list, are exact for lists of messages (`ReassemblyExact.WrittenArrives`,
  `ReassemblyExact.WrittenArrivesUnsplit`). What goes wrong otherwise: a long frame stopped after four bytes
  takes its second length byte from unread memory, and the event loop, which only logs the refusal, waits for
  more than the buffer holds (`ReassemblyExact.LongFails`); a short frame with a high first byte leaves
  nothing to ask for before the header is recognised (`ReaderExact.HighFirstByteStalls`).
* An empty payload makes a frame shorter than the prefetch. The reader takes a byte of the next frame, the
  count of bytes still to come wraps and is negative as an int, and the next read closes the connection
  (`ReaderExact.EmptyPayloadOverreads`, `ReaderSafety.ZeroLengthCloses`).
* Up to the first error no stream leads the reader out of its 1024 bytes (`ReaderSafety.InsideUntilAnError`).
  But the event loop goes on after refusing a frame (20000), and the next read asks for all that was
  announced. Which streams can lead out then is exact: those longer than 1024 bytes that announce more than
  1019, or, as written, have any two-byte length (`ReaderSafety.LeavesExactly`).
* Whether cursor, parse state, payload start, remaining count and finished flag depend on how the reads are
  split: with the test at offset 3 never, for payloads of two bytes or more
  (`ReaderView.IntendedViewDependsOnBytes`). As written they do, over one and the same memory, for every
  payload but those of 2 to 127 bytes that start with a byte below 128
  (`ReaderView.WrittenViewDependsOnBytes`, `ReaderView.LongDependsOnSplit`, `ReaderView.HighDependsOnSplit`);
  and the old contents of the memory show in every frame (`ReaderView.MemoryShowsThrough`). With one payload
  byte the finished flag depends on the split at either offset (`ReaderView.OneByteDependsOnSplit`).
* Two messages can share an id not only at the wrap but also one step before a whole period is over, since
  both counter states 100 and 32767 issue 100 (`SessionId.SharedIds`).
* The unsigned comparison of the expiry scan means "more than 120 s ago" if and only if the clock is not
  behind the entry, or so far behind that the wrapped difference is small again (`Expiry.ExpiredIsLate`); a
  clock set back drops a whole list in which nothing is late (`Expiry.BackwardsClockDropsAll`). For any
  list and clock, `Expiry.ScanIsRecent` says exactly when the scan keeps just what it should.
* The stop-at-first-fresh scan removes exactly the expired entries if and only if none stands behind a
  fresh one (`Expiry.ScanIsFilter`).
* A user who asks and consents to himself gets two version bumps
  (`FriendshipVersions.ConsentBumpsOnceIffDistinct`), one of them for no new list entry
  (`FriendshipVersions.OneBumpPerFriend`). A workflow that stopped anywhere but at "createNodeCount" can
  neither be continued nor restarted (`FriendshipConsent.StuckForever`, `FriendshipConsent.MovableExactly`).
* "finish" does not mean that the invitee agreed: the consent takes the invitee to be its caller and never
  looks at the one stored, so a user can agree to his own request (`FriendshipConsent.InviterCanAgree`).
  What holds is that one of the two agreed, and that it was the invitee in all cases if and only if every
  accepted consent came from the stored invitee (`FriendshipConsent.WhoAgreed`).
* Logging out records the session id under the device id instead of the user id. The gate has already
  recorded it for the user, so the stored id is right all the same (`SessionGate.Handled`,
  `Sessions.StoreIsLastRecorded`).
* An insert into a conversation without a counter is meant to fail with 40050; the surrounding handler
  turns it into 40051 (`Messages.Mongo.InsertMessage`).
* An open-ended message query is not limited to 50 (`Messages.OpenEndHasNoLimit`).

## Model

| member | source | states |
|---|---|---|
| VarLength.EncodingVarLength | yijian/buffer_yi.cxx:262-276 | the loop writes exactly the encoding at its position, returns its end and leaves the rest of the memory alone |
| VarLength.DecodingVarLength | yijian/buffer_yi.cxx:241-260 | the loop returns what the two-byte decoding of the memory is, or the malformed error |
| VarLength.EncodeDenotes | yijian/buffer_yi.cxx:262-276 | an encoding is a terminated digit string that denotes its number |
| VarLength.EncodeIsMinimal | yijian/buffer_yi.cxx:262-276 | no terminated string for the same number is shorter |
| VarLength.EncodeIsPrefixFree | yijian/buffer_yi.cxx:262-276 | an encoding that is a prefix of another is the same encoding |
| VarLength.RoundTrip | yijian/buffer_yi.cxx:241-276 | decoding an encoding followed by anything returns the number and its length iff the number is below 16384, and fails iff it is not |
| Fragment.PiecesIsCut | yijian/buffer_yi_util.hpp:31-49 | pieces join to the message, all but the last are full, and the last is empty only for an empty message |
| Fragment.CutIsUnique | yijian/buffer_yi_util.hpp:31-49 | there is no other such cut |
| Fragment.PieceCount | yijian/buffer_yi_util.hpp:38-48 | the number of pieces is the size over 1019 rounded up, at least one |
| Connections.CutRound | yijian/buffer_yi_util.hpp:38-48 | one round of the loop, whose last substr asks for the whole size, cuts off one piece of at most 1019 bytes and keeps what is left to cut |
| Connections.YijianBuffer | yijian/buffer_yi_util.hpp:26-50 | the loop ends, and its buffers are new, distinct and hold exactly the framed pieces of the message; encoding never refuses one |
| Frames.StampRoundTrip | yijian/buffer_yi.cxx:223-236 | id and last flag survive the 16 bits iff the id is at most 32767; a larger one arrives as another id with the opposite flag |
| Frames.HeaderShape | yijian/buffer_yi.cxx:420-446 | where each header field of a frame lies and that every framed piece fits in 1024 bytes |
| Frames.AllFramesAreValid | yijian/server_msg_typemap.cxx:103-110 | the frames of non-empty messages with ids up to 32767 are all within the format |
| Buffers.Buffer.Encoding | yijian/buffer_yi.cxx:420-446 | the buffer holds type, size and payload behind the id, or the length error and no change |
| Buffers.Buffer.SetSessionId | yijian/buffer_yi.cxx:223-236 | stamping completes the bytes to be sent; it may be repeated |
| Buffers.Buffer.SocketWrite | yijian/buffer_yi.cxx:167-179 | a taken buffer puts exactly its bytes on the stream, a refused one changes nothing |
| Buffers.Buffer.SocketRead | yijian/buffer_yi.cxx:73-165 | the in-place parser with its cursor, flags and loop does what the function ReadCall says, on memory and socket |
| Reader.ReadCallProgress | yijian/buffer_yi.cxx:73-165 | a call uses up at least one answer of the socket unless it fails or is finished, so repeated calls end |
| Reader.ReadCallKeeps | yijian/buffer_yi.cxx:84-155 | whatever the socket answers, a call keeps the cursor at the bytes consumed, the memory a prefix of the frame, the remaining count right, and nothing past the frame is taken or written; the only error is 20007, with one payload byte |
| Reader.MalformedForGood | yijian/buffer_yi.cxx:101-122 | a malformed length is thrown again by every further call, which reads and changes nothing |
| Reader.HeaderCodes | yijian/buffer_yi.cxx:101-136 | when a header is refused with 20001 and when with 20000 |
| Reader.RunKeeps | yijian/buffer_yi.cxx:73-165 | the same over any schedule of calls |
| ReaderExact.IntendedReadsExactly | yijian/buffer_yi.cxx:73-165 | with the test at offset 3 a frame is read exactly under every schedule iff its payload has at least two bytes |
| ReaderExact.WrittenReadsExactly | yijian/buffer_yi.cxx:91-98 | as written: iff the payload has 2 to 127 bytes and starts with a byte below 128 |
| ReaderExact.WrittenReadsUnlessStopped | yijian/buffer_yi.cxx:91-98 | as written, under schedules on which no read stops inside a two-byte length: iff the payload has at least two bytes and is at least 128 bytes long or has a first byte below 128 |
| ReaderExact.EmptyPayloadOverreads | yijian/buffer_yi.cxx:324-374 | a frame without payload takes a byte of the next one, and the read after it has a negative count and fails |
| ReaderExact.OneByteIsMissed | yijian/buffer_yi.cxx:144-155 | a frame with one payload byte that arrives at once is never finished, whatever follows |
| ReaderExact.StopAtFourMisreads | yijian/buffer_yi.cxx:91-124 | a long frame read four bytes at first is misread |
| ReaderExact.HighFirstByteStalls | yijian/buffer_yi.cxx:91-98 | a short frame with a high first byte leaves the reader with no byte to ask for and no header |
| ReaderView.IntendedViewDependsOnBytes | yijian/buffer_yi.cxx:84-155 | with the test at offset 3: cursor, parse state, payload start, remaining count and finished flag depend only on the bytes consumed, not on schedule or memory, iff the payload has at least two bytes |
| ReaderView.WrittenViewDependsOnBytes | yijian/buffer_yi.cxx:91-98 | as written (offset 4), over one memory and all schedules: iff the payload has 2 to 127 bytes and starts with a byte below 128 |
| ReaderView.UnsplitViewDependsOnBytes | yijian/buffer_yi.cxx:91-98 | as written, over one memory and schedules that split no two-byte length: iff the payload has two bytes or more and is long or starts with a byte below 128 |
| ReaderView.OffFourViewDependsOnBytes | yijian/buffer_yi.cxx:91-98 | as written, over different memories, with no stop at four bytes: iff the payload is long or starts with a byte below 128; with such stops for none |
| ReaderView.LongDependsOnSplit | yijian/buffer_yi.cxx:91-124 | as written, for every long frame, four bytes and one leave another remaining count than five at once, on the same memory |
| ReaderView.HighDependsOnSplit | yijian/buffer_yi.cxx:91-98 | as written, for every short frame of two bytes or more with a high first byte, the same two schedules look different on one memory |
| ReaderView.HighDependsOnMemory | yijian/buffer_yi.cxx:91-98 | as written, for every short frame with a high first byte, five bytes at once look different over two memories |
| ReaderView.MemoryShowsThrough | yijian/buffer_yi.cxx:91-98 | as written, for every frame, a stop at four bytes looks different over two memories |
| ReaderView.OneByteDependsOnSplit | yijian/buffer_yi.cxx:144-155 | at either offset a one-byte payload is finished after four bytes and one, and not after five at once |
| ReaderSafety.LeavesExactly | yijian/buffer_yi.cxx:127-149 | for every stream: some memory and schedule lead a read past the 1024 bytes iff the stream is longer than that and announces more than 1019 (offset 3) or has a two-byte length (offset 4); the event loop goes on after error 20000 |
| ReaderSafety.InsideUntilAnError | yijian/buffer_yi.cxx:73-165 | up to the first error no stream, memory or schedule leads out of the buffer, at either offset |
| ReaderSafety.ZeroLengthCloses | yijian/buffer_yi.cxx:324-374 | a length of zero whose fifth byte has been read ends in error 20008, whatever follows |
| Connections.WriteIO.Mount | yijian/server_msg_typemap.cxx:103-115 | mounting appends the stamped frames of the message, the last one flagged, and leaves what was queued alone |
| Connections.WriteIO.WriteFront | yijian/libev_server.cxx:779-850 | a taken front frame leaves the queue and is on the stream; an empty queue stops the watcher |
| Connections.StampedIsWire | yijian/server_msg_typemap.cxx:103-115 | what was mounted is the frames of the message on the wire |
| Connections.Concatenate | yijian/server_msg_typemap.cxx:1311-1314 | joining the gathered buffers gives the payloads in order |
| Connections.ReadIO.ReadCallback | yijian/libev_server.cxx:664-745 | the read side in place, with its vector of buffers, does what the function Callback says |
| Reassembly.LoopKeeps | yijian/libev_server.cxx:664-769 | over any sequence of callbacks, past logged errors, what was handed out is the first messages of the stream, and the buffers hold the frames since; the end is reached if no frame is complete with its header |
| Reassembly.EndToEnd | yijian/libev_server.cxx:664-769 | at either offset, for frames it recognises on schedules that split no length (or short frames on any): only the messages are handed out, in order; and all of them once two unrestrained reads per frame have followed, if no frame has a one-byte payload |
| ReassemblyExact.IntendedArrives | yijian/libev_server.cxx:664-769 | with the test at offset 3, a list of messages arrives whole on every schedule and memory iff no size is one above a multiple of 1019 |
| ReassemblyExact.WrittenArrives | yijian/libev_server.cxx:664-769 | as written: iff every frame has 2 to 127 payload bytes and starts with one below 128 |
| ReassemblyExact.WrittenArrivesUnsplit | yijian/libev_server.cxx:664-769 | as written, on every schedule that splits no two-byte length: iff every frame has two payload bytes or more and is long or starts with a byte below 128 |
| ReassemblyExact.LongFails | yijian/libev_server.cxx:751-767 | a long frame stopped at four bytes over a memory of 127s is never finished, though the event loop goes on after the error |
| ReassemblyExact.HandsOverExactly | yijian/libev_server.cxx:724-736 | when all messages are for workers, the workers get exactly the list on all schedules (or all that split no length) iff it arrives whole on them |
| ReassemblyRouting.NoServerTypes | yijian/libev_server.cxx:680-729 | whatever arrives, on every schedule and memory, no message of type 42 or 43 is ever handed to a worker |
| ReassemblyRouting.HandedOverExactly | yijian/libev_server.cxx:680-735 | one callback on any bytes hands a message over exactly when the frame just finished is flagged last and of neither type 42 nor 43, with that frame's type and id and all gathered payloads |
| ReassemblyRouting.WorkersGetTheOthers | yijian/libev_server.cxx:680-729 | with the test at offset 3 the workers get a prefix of the messages of all other types, in order; all of them if no size is one above a multiple of 1019 |
| ReassemblyRouting.WorkersGetTheOthersWritten | yijian/libev_server.cxx:680-729 | as written, all of them under the exact conditions on the frames |
| ReassemblyRouting.WorkersGetTheList | yijian/libev_server.cxx:680-729 | for a list without types 42 and 43 the workers get the list itself on every schedule and memory iff no size is one above a multiple of 1019; as written iff every frame has 2 to 127 payload bytes and starts below 128 |
| Reassembly.EndToEndIntended | yijian/libev_server.cxx:664-769 | with the test at offset 3, for all non-empty messages with ids up to 32767 and any schedule: only the messages are handed out, in order; and all of them if no size is one above a multiple of 1019 |
| Reassembly.OutlastBySize | yijian/buffer_yi_util.hpp:31-49 | no frame of a list has a one-byte payload iff no size is one above a multiple of 1019 |
| Pipeline.InvKept | yijian/threads_work.cxx:36-182 | every step of every thread keeps all the hand-off invariants |
| Pipeline.AccountedKept | yijian/threads_work.cxx:149-168 | no step loses, duplicates or reorders a worker's tasks |
| Pipeline.WakeupKept | yijian/threads_work.cxx:52-77 | a non-empty work queue has a worker that drains it, is signalled or is about to be |
| Pipeline.DeadlockKept | yijian/threads_work.cxx:66-71 | a producer blocked on a full queue has been signalled or the worker of that queue owes it the signal |
| Pipeline.StrandedKept | yijian/libev_server.cxx:566-577 | a connection with something to write stays watched or attended to |
| Pipeline.InterleavedKept | yijian/server_msg_typemap.cxx:103-115 | sent and queued frames stay those of whole messages |
| Pipeline.ScanFindsShortest | yijian/threads_work.cxx:40-52 | the selection loop, with the queues at rest, ends at the first of the shortest queues |
| PipelineRuns.ExactlyOnceInOrder | yijian/threads_work.cxx:32-79 | in every reachable state the tasks sentWork was called with are those pushed, in order, and the one still in hand while it scans, pushes or waits; each pushed task is done, in flight or queued exactly once, in order per worker, and no queue exceeds 20 |
| PipelineRuns.OneWorkerDoesAll | yijian/threads_work.cxx:32-182 | with one worker everything submitted is what it has done, runs and has queued, in submission order, and then the task in hand |
| PipelineRuns.AsleepMeansDone | yijian/threads_work.cxx:149-182 | when all sleep and no callback runs, everything sentWork was called with has been executed |
| PipelineProgress.NeverStuck | yijian/threads_work.cxx:36-79 | while the producer is inside a call some thread can move, for either initial flag |
| PipelineProgress.BlockedIsReleased | yijian/threads_work.cxx:66-71 | a blocked producer's worker always has a step, and after a bounded number of its steps the signal is there |
| PipelineProgress.SentWorkReturns | yijian/threads_work.cxx:36-79 | from every reachable state with the producer inside sentWork the steps of all threads until it returns are bounded, over any number of full queues, waits and rescans, and there is always a next one |
| PipelineProgress.LeftOnlyByReturning | yijian/threads_work.cxx:52-79 | sentWork is left only by its signal, with its task pushed |
| PipelineDrain.EverythingGetsOut | yijian/libev_server.cxx:566-577 | from every reachable state, without new submissions and connections gained or lost, the steps of all threads are bounded; and one can be taken until every task is executed, every live connection has sent all that was mounted on it and no write watcher is on |
| PipelineResponses.LiveUntilDropped | yijian/libev_server.cxx:566-577 | in every run a connection is live exactly as long as it has not been dropped |
| PipelineResponses.NothingWatchedUnwritten | yijian/libev_server.cxx:560-580 | in every run a connection's write watcher is started only once something was mounted for it |
| PipelineResponses.WaitsAtTwenty | yijian/threads_work.cxx:52-71 | sentWork waits exactly when the queue it selected holds twenty, and pushes otherwise |
| PipelineResponses.EveryResponseIsSent | yijian/libev_server.cxx:566-577 | for any number of workers, once nobody can move: each connection was given exactly the responses to the submitted tasks, each as often as they name it, and a live one has sent them |
| PipelineResponses.EveryResponseInOrder | yijian/libev_server.cxx:724-729 | with one worker in the order of submission |
| PipelineResponses.NothingDroppedNothingMissing | yijian/libev_server.cxx:566-577 | the same for every connection of a run that does not drop it, without speaking of liveness |
| PipelineRuns.NoStrandedResponse | yijian/threads_work.cxx:82-99 | a live connection with unsent frames is watched, about to be started, in a batch that will be swapped, or being mounted on |
| PipelineRuns.QuietMeansWatched | yijian/libev_server.cxx:566-577 | once nothing runs and no wakeup is pending, everything unsent is watched |
| PipelineRuns.QueueIsWholeMessages | yijian/libev_server.cxx:779-843 | every write queue is the unsent rest of one message followed by whole messages, with the last flag on exactly the final frame of each |
| PipelineRuns.ResponsesInRequestOrder | yijian/libev_server.cxx:724-729 | with one worker a connection's messages are a prefix of the responses to the tasks sentWork was called with, in order |
| PipelineReceiver.ReceiverGetsMounted | yijian/libev_server.cxx:779-843 | in every reachable state a receiver puts together a prefix of the mounted messages from what was sent so far; at offset 3 however its reads are split, at offset 4 for frames it recognises when no read splits a length (or all are short) |
| PipelineReceiver.ReceiverGetsMountedIntended | yijian/libev_server.cxx:779-843 | at offset 3, for any non-empty messages with ids up to 32767 and any schedule |
| SessionId.CounterState | yijian/libev_server.cxx:703-711 | from a start in 100..32767 the counter after k numbered messages is 100 + (start - 100 + k) mod 32668 |
| SessionId.IssuedSurvivesStamping | yijian/libev_server.cxx:703-711 | issued ids lie in 100..32766 and never touch the last-flag bit |
| SessionId.SharedIds | yijian/libev_server.cxx:703-711 | exactly when two messages less than a period apart share an id, and that ids repeat after a period |
| SessionId.SharedBeforeThePeriod | yijian/libev_server.cxx:703-711 | the pair 32667 apart that both get 100 |
| SessionId.Settles | yijian/libev_server.cxx:703-711 | from any 16-bit start the counter comes into range and stays |
| SessionGate.Node.Issue | yijian/libev_server.cxx:703-711 | the read callback issues the expected id and advances the counter, on numbered types only |
| SessionGate.Node.Dispatch | yijian/server_msg_typemap.cxx:1293-1357 | gate, recording and handler in place do what the function Dispatched says, with its error codes |
| SessionGate.Node.OnConnect | yijian/server_msg_typemap.cxx:408-480 | a connect takes the counter from the store, one above, and names the connection; a failed one changes nothing |
| SessionGate.Node.OnLogin | yijian/server_msg_typemap.cxx:246-341 | a login enters the user with 100 unless already listed |
| SessionGate.Node.Handle | yijian/server_msg_typemap.cxx:359-523 | logout and disconnect write the id of the request |
| SessionGate.Database.UpdateSessionID | yijian/mongo.cxx:1082-1103 | only a listed user's id is set |
| Sessions.SendKeeps | yijian/libev_server.cxx:703-711 | a conforming client stays in step when it sends, however much is under way |
| Sessions.ReadKeeps | yijian/libev_server.cxx:703-729 | reading a message keeps the step |
| Sessions.WorkKeeps | yijian/server_msg_typemap.cxx:1318-1354 | a worker that takes any waiting task keeps the step, also when it is a connect |
| Sessions.NeverRefused | yijian/server_msg_typemap.cxx:1318-1354 | lockstep: in every run no task of a conforming client is refused with 11010, 11011 or 11013, whatever others do |
| Sessions.StoreIsLastRecorded | yijian/mongo.cxx:1082-1103 | resume: in every run a stored id is the last one recorded for that user and device, 100 if none, and lies in 100..32766 |
| Sessions.ReconnectResumes | yijian/server_msg_typemap.cxx:432-457 | a successful connect starts one above it and says so |
| Sessions.OnlyTheRightIdPasses | yijian/server_msg_typemap.cxx:1318-1354 | the converse: behind everything a conforming client has pipelined, a numbered message passes iff it carries the id the client is at |
| SessionHistory.ReadIssues | yijian/libev_server.cxx:698-711 | what the event loop expects of each message it hands on, and how the counter moves |
| SessionHistory.RefusedExactly | yijian/server_msg_typemap.cxx:1318-1354 | for every connection of every run, conforming or not: exactly when 11010, 11011 and 11013 come out, in terms of stamp, issued id, type and whether a connect response has been at the front of the write queue; before that no numbered request is accepted, and a refusal changes nothing |
| SessionHistory.StoreFollowsAnswers | yijian/mongo.cxx:1082-1103 | resume, from the answers of the run alone: the store lists exactly who has logged in (or was written by name) and holds the last id accepted for him on a connection whose last successful connect named him, or written by his disconnect or a logout, 100 if none |
| SessionHistory.ConnectAnswers | yijian/server_msg_typemap.cxx:408-480 | a connect that is not refused is answered with one above that id, and the counter starts there, iff its lookups succeed and the user is listed |
| SessionHistory.LoginThenConnect | yijian/server_msg_typemap.cxx:279-305 | after an accepted login every later connect of that user on that device succeeds |
| Expiry.ScanIsFilter | yijian/libev_server.cxx:101-117 | the early-stopping scan equals the filter iff no expired entry stands behind a fresh one |
| Expiry.SortedScan | yijian/libev_server.cxx:101-117 | on a sorted list and a clock not behind it the scan removes exactly the entries older than 120 s |
| Expiry.ExpiredIsLate | yijian/libev_server.cxx:108 | the unsigned test means more than 120 s ago iff the entry is not ahead of the clock, or by 2^64 - 120 at least |
| Expiry.ScanIsRecent | yijian/libev_server.cxx:101-117 | for any list and clock, the scan keeps exactly the entries of the last 120 s iff no late entry stands behind another and the first that is not late does not make the difference wrap |
| Expiry.BackwardsClockDropsAll | yijian/libev_server.cxx:108 | a list whose entries all lie ahead of the clock, by less than the wrap forgives, is dropped whole though nothing in it is late |
| Expiry.InvKept | yijian/libev_server.cxx:66-117 | appending, moving back, erasing and ticking keep the list sorted, free of duplicates and at most 120 s behind the last tick |
| Expiry.NeverExpiredWhileWritten | yijian/libev_server.cxx:88-119 | over any run a connection that at no tick is more than 120 s unwritten stays listed |
| Expiry.GoneAfterTwoPeriods | yijian/libev_server.cxx:97-119 | one not written to since t is gone after the first tick past t + 120, and by t + 240 |
| Expiry.ListedExactly | yijian/libev_server.cxx:66-119 | over any run exactly those are listed that were accepted, not erased since and at no tick more than 120 s unwritten, each with the time of its last write |
| PingList.Server.IterMeansListed | yijian/libev_server.cxx:66-95 | a node's iterator is set exactly when it is listed, and it is listed once |
| PingList.Server.PingErase | yijian/libev_server.cxx:66-79 | erasing by the stored iterator removes exactly this node, if listed |
| PingList.Server.PingAppend | yijian/libev_server.cxx:80-87 | the node goes to the end with the current time |
| PingList.Server.PingMove2Back | yijian/libev_server.cxx:88-95 | a listed node moves to the end, an unlisted one is not brought back |
| PingList.Server.PingtimeCallback | yijian/libev_server.cxx:97-117 | the erasing loop does the scan, resets the iterators and forgets the dropped devices |
| PingList.ScanForgets | yijian/libev_server.cxx:101-117 | exactly the devices of the dropped connections are forgotten |
| Friendship.KeyIsSymmetric | yijian/mongo.cxx:404-409 | either direction gives the same key |
| Friendship.KeyIsUnique | yijian/mongo.cxx:404-409 | ids without a bar share their key exactly with the same unordered pair |
| Friendship.BarsCanCollide | yijian/mongo.cxx:404-409 | with bars two pairs can collide |
| Friendship.Mongo.AddFriend | yijian/mongo.cxx:396-488 | handler checks and six writes, stopped after any number of them, do what the function Perform says |
| Friendship.Mongo.AddFriendAuthorize | yijian/mongo.cxx:490-608 | the same for the nine writes of the consent |
| FriendshipRuns.PerformKeeps | yijian/mongo.cxx:396-608 | an operation stopped anywhere keeps every pair's workflow in order and touches no other |
| FriendshipRuns.StatusNeverLies | yijian/mongo.cxx:396-608 | over every run, requests to oneself included, the effects for a pair are applied in order, the recorded status claims none that is missing, and they lead it by at most one write |
| FriendshipRuns.FinishIsMutual | yijian/mongo.cxx:530-598 | "finish" means both users, be they one, list each other under the same node and both have their unread entry |
| FriendshipRuns.OneNodePerPair | yijian/mongo.cxx:404-462 | a pair never gets a second conversation node |
| FriendshipVersions.OneBumpPerFriend | yijian/mongo.cxx:537-580 | over every run a user's version grows by exactly the number of his friends, each listed once, and by one more once he has agreed with himself and reached the second list |
| FriendshipVersions.ConsentBumpsOnceIffDistinct | yijian/mongo.cxx:537-580 | an undisturbed consent bumps both sides once iff they are different users |
| FriendshipConsent.StuckForever | yijian/mongo.cxx:503-520 | a request not at "createNodeCount" never changes again and every further attempt by the pair is rejected |
| FriendshipConsent.MovableExactly | yijian/mongo.cxx:503-520 | in every run some operation of the pair is accepted for a request iff it is at "createNodeCount" |
| FriendshipConsent.WhoAgreed | yijian/mongo.cxx:490-521 | over every run a request past "createNodeCount" was agreed to by one of its two users, and all of them by their invitees iff every accepted consent came from the stored invitee |
| FriendshipConsent.InviterCanAgree | yijian/mongo.cxx:490-521 | the failing input: a user asks and then agrees to his own request, which finishes |
| FriendshipCallers.OnlyTheNamedAct | yijian/server_msg_typemap.cxx:525-634 | an operation that changes anything was sent by the inviter it names, or for a consent by the invitee it names |
| FriendshipCallers.ConsentedByMember | yijian/server_msg_typemap.cxx:629-634 | over every run a request past "createNodeCount" was taken there by a consent that one of its two users sent |
| FriendshipCallers.RequestCodes | yijian/mongo.cxx:396-440 | when each error code of a request comes out |
| FriendshipCallers.ConsentCodes | yijian/mongo.cxx:490-521 | when each error code of a consent comes out |
| FriendshipCallers.RequestTakesFirstNumber | yijian/mongo.cxx:440-488 | in every run an undisturbed request leaves its conversation's counter at one |
| Messages.InvKept | yijian/mongo.cxx:837-861 | each database call keeps every number below the counter stored, lost or with exactly one worker |
| Messages.NumberedOnce | yijian/mongo.cxx:837-861 | stored numbers lie below the next one, a number about to be stored is free, and there is no gap iff none was lost or is on its way |
| Messages.CountIsTakes | yijian/mongo.cxx:840-861 | over any run a conversation's counter is the number of inserts that took a number, and only opened ones have a counter |
| Messages.ContentIsKept | yijian/mongo.cxx:837-861 | over every run a stored message has the content of the one insert that got its number, and keeps it whatever happens later |
| Messages.InsertedIsRead | yijian/mongo.cxx:882-905 | a message just inserted is exactly what a query for its number answers with |
| Messages.AnswersExactly | yijian/server_msg_typemap.cxx:977-981 | the queries answered are those for one to fifty numbers and the open ones from -50 on |
| Messages.MarkMovesTo | yijian/mongo.cxx:1161-1183 | an existing mark becomes the larger of itself and the increment, and nothing else changes |
| Messages.PageIsExact | yijian/mongo.cxx:882-905 | a page is exactly the stored numbers of its range, strictly descending |
| Messages.AnswerIsUnique | yijian/mongo.cxx:897-898 | there is no other answer with these elements in that order |
| Messages.AdjacentPages | yijian/mongo.cxx:882-905 | adjacent pages partition their union |
| Messages.QueryIsExact | yijian/server_msg_typemap.cxx:977-981 | in every reachable state an accepted query answers with exactly the stored numbers asked for, descending, at most 50 when it has an end |
| Messages.OpenEndHasNoLimit | yijian/mongo.cxx:884-886 | without an end a whole conversation comes back |
| Messages.WalkReadsEverything | yijian/server_msg_typemap.cxx:977-981 | going back in pages of 50 is never refused and reads everything once |
| Messages.MarksCommute | yijian/mongo.cxx:1161-1183 | read marks only move forward, in whatever order updates arrive |
| Messages.Mongo.InsertMessage | yijian/mongo.cxx:832-874 | counter first, message second: exactly this content under the number taken, or 40051; a failed insert leaves the number used |
| Messages.Mongo.UpdateReadedIncrement | yijian/mongo.cxx:1161-1183 | the conditional update sets exactly this entry's mark, and only forward |
| Messages.Mongo.QueryMessage | yijian/server_msg_typemap.cxx:973-1005 | refuses exactly the invalid ranges with 11008, moves the read mark and returns the stored numbers of the range with their contents, the newest first |

## Left out

- Pipeline.ScanFindsShortest: holds with the queues at rest; while the loop looks, workers drain queues it has already seen.
- PipelineRuns.ResponsesInRequestOrder: for one worker, as the server has; several workers answer one connection in any order.
- Sessions.NeverRefused: the handlers of connect, disconnect, logout and login are one step each, as with the server's single worker; with several workers they read, change and write back a device's record without a lock.
- Friendship.Mongo.AddFriend: without the block-list check, and with the number of the request message but not the message itself, which `Messages` has.
- SessionGate.Node.Handle: a disconnect or logout for a device whose record is missing does nothing here; the source goes on with the record it loaded before.
- SessionGate.Node.OnConnect: a connect whose user is missing from the device's record fails here; the source looks the entry up unchecked.
- TLS, sockets, signals, certificates, logging, configuration, protobuf: serialised messages are byte strings.
- What happens once a read has gone past the 1024 bytes: the model ends there, with an error of its own.
- Other causes for a failed read than its count (20005, 20006, a broken socket): they close the connection.
- Mounting on several devices or peers: the same buffers are pushed to several queues, so their write state is shared; only the requesting device is modelled.
- Peer servers: they use a node's iterator for another list.
- Agreement of the device map with live connections: entries are deleted from several places; only the deletions of the expiry scan are modelled.
- What a failed write does beyond ending the connection.
- Stopping the worker threads: `isContine_` is never cleared.
- `yijian/kvdb.cxx`, `yijian/net_yi.cxx`, `yijian/lib_client.cxx` and the example clients; the conforming client is an assumption.
- Groups, media, profile fields, unread counters of groups.
- Overflow of the 32-bit message numbers and of differences between them.
- An unread insert that fails for another reason than a duplicate: the source ignores it and goes on.
