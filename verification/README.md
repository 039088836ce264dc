# NitroCoro, verified models

NitroCoro is a C++20 coroutine runtime with HTTP/1, HTTP/2, WebSocket, DNS and PostgreSQL pool
extensions. This project models its hardest parts in Dafny and proves what they promise. `dafny verify
dfyconfig.toml` checks all of it.

**Lock-free core.** The coroutine mutex (`Mutex.dfy`), the multi-producer queue (`MpscQueue.dfy`), the
event loop with its eventfd (`Scheduler.dfy`), the pipe (`Pipe.dfy`), the one-shot waiter list
(`OneShotList.dfy`) and on top of it promises (`Future.dfy`) and cancellation (`Cancel.dfy`) are
transition systems: every atomic load, store, exchange and compare-and-exchange is one step of one
thread, a run is any interleaving of steps, and the theorems are about every state of every run. Weak
compare-and-exchange may fail spuriously. Steps are sequentially consistent.

**Routing.** `RadixTree.dfy` holds the tree and its search, `RadixSearch.dfy` the proof that the search
finds the best candidate, `RadixBindings.dfy` which bindings survive it, `Router.dfy` the comparison with
a linear scan over the registered patterns and the router object.

**Message framing.** `ByteIO.dfy` has the byte stream, whose reads deliver any number of bytes, and the
compacting buffer in front of it. `ChunkedFormat.dfy` is the chunked coding of section 4.1 of RFC 7230 on
whole byte strings, `ChunkedWriting.dfy` the writer, `BodyReader.dfy` the incremental readers.
`WsFrame.dfy` and `WsConnection.dfy` are WebSocket frames and messages (sections 5.2 to 5.5 of RFC 6455).

**HPACK.** `HpackInt.dfy`, `Huffman.dfy`, `HuffmanDecoding.dfy` and `HpackTable.dfy` are the integer and
string codes and the table of RFC 7541; `Hpack.dfy`, `HpackBlock.dfy` and `HpackLockstep.dfy` the header
blocks and the lockstep of the two tables; `HpackReading.dfy` has blocks as any peer may write them, and
`HpackCodec.dfy` the encoder and decoder objects. The Huffman code and automaton are parameters;
`Huffman.GoodCodes` and `HuffmanDecoding.Matches` say what is assumed.

**HTTP/2.** `Http2Wire.dfy` has frames as bytes and the senders that share the write lock,
`Http2Body.dfy` the pipe and reader of a request body, `Http2History.dfy` what is said of a run and how
payloads are laid out, `Http2Reaction.dfy` what a session owes to each frame and which header blocks a
sequence of frames carries, `Http2Session.dfy` the server session, whose streams own body readers and whose
handlers read from them.

**Pool and DNS.** `Pool.dfy` and `Dns.dfy` are objects whose methods are the steps between which other
work can come: callbacks on the pool's scheduler, locked regions of the resolver.

`Arith.dfy` has the facts about powers and quotients that the byte formats share, `LinkedList.dfy` the
intrusive lists of the lock-free core, `Collections.dfy` and `Wrappers.dfy` what is needed of sets,
multisets and optional values.

## Where the code does less than it seems to

Each of these has a lemma with a concrete case or family of cases, and next to it the exact condition.

- A pipe's `recv` can yield nullopt although the pipe is open: after a wake that came late
  (`NulloptOnAnOpenPipe`), or when the item of the sender that wakes is behind one whose push has not
  linked yet (`NulloptBeforeAnItem`). It does so exactly when all is taken or the push whose turn it is
  stopped half way (`NulloptIff`). With uninterrupted senders nullopt means closed and drained, and only
  that (`NulloptMeansEnd`).
- An awaiter that finds a future's list closed can read before the result is stored
  (`LateAwaiterCanMissResult`), exactly while the setter is between the two (`LateAwaiterReads`).
- A search that backtracks can lose a binding of the pattern it finds (`RepeatedNameLosesBinding`). The
  pattern and its route are right in any case. Its binding of a name is lost if and only if some
  registered pattern agrees with it beyond the last position that binds the name, is preferred at the
  next, and binds the name again at a position that the path still reaches (`SearchAgreesWithScan` with
  `Router.Kept`). Such a pattern repeats a name (`LoserRepeatsName`), so with distinct names in each
  pattern nothing is lost (`DistinctNamesLoseNothing`).
- A chunk of 2^52 bytes or more gets a wrong size line, smaller ones the right one (`SizeLineIsExact`).
- Content length and cookies are sent as literals with indexing but do not enter the encoder's own
  table. `InStepExactly` says for which blocks the peer's table nevertheless ends up equal, `Lockstep` that
  a whole run stays in step if and only if all its blocks are such, `NewestIsMisread` what goes wrong
  otherwise.
- A CONTINUATION on stream zero is accepted when no block has begun, so a block can reach HPACK that no
  HEADERS started: exactly then (`Http2Session.Session.Process`, `Http2Session.Session.Run`).
- A frame whose payload has 2^24 bytes or more, or whose stream id has 32 bits, is not read back
  (`Http2Wire.FrameRoundTrip`).
- A pong that nobody asked for is taken for the end of a text message. A message with pings and pongs
  among its frames is received as it was sent if and only if there is no pong (`MessageReceived`);
  otherwise the result is text, the data up to the first pong and then the pong's own, and the frames
  after it are left unread (`PongEndsMessage`).
- A cancellation of a pool's `acquire` throws if the waiter's promise is set, the waiter was not cancelled
  before and `acquire` has not come back yet, and only then (`Pool.PoolState.Cancel`); `CancelCanThrow` gets
  there from an empty pool. Out of a timer's callback nothing catches it.
- A write that fails gives up the write lock, and the next sender writes behind a frame that may be cut
  off. For every frame cut off behind its header, the reader takes the beginning of the next sender's bytes
  for its payload (`CutFrameIsFilled`). At any moment of any run all frames are read back, in lock order, if
  and only if every sender's turn is whole (`ReadBackExactly`); while only the last turn is not, the reader
  gets the first of them and nothing else (`LastTurnCut`).

The comment in `HuffmanTable.h` says that codes are aligned to the least significant bit. The encoder
uses them as aligned to the most significant one, and the model follows the encoder.

## Model

| member | source | states |
|---|---|---|
| MutexProtocol.MutualExclusion | include/nitrocoro/core/Mutex.h:47-109 | In every state of every interleaving at most one coroutine owns the mutex or is inside `unlock`, and nobody does while the word says unlocked. |
| MutexProtocol.AssertsNeverFail | include/nitrocoro/core/Mutex.h:68-109 | The asserts of `unlock` hold whenever they are reached, and every coroutine that is not suspended has a next step. |
| MutexProtocol.SuspendedExactlyOnce | include/nitrocoro/core/Mutex.h:158-187 | A suspended awaiter is in exactly one of stack, half-reversed list and service list, everyone else in none, and every successful enqueue is handed the mutex exactly once. |
| MutexProtocol.FirstComeFirstServed | include/nitrocoro/core/Mutex.h:68-109 | The k-th hand-over goes to the coroutine whose enqueue was the k-th to succeed, although the stack is kept newest first and reversed in place. |
| MutexProtocol.NoBarging | include/nitrocoro/core/Mutex.h:47-54 | A lock attempt succeeds directly only if no awaiter is unserved; otherwise the mutex goes to the oldest one. |
| MutexProtocol.HowAcquired | include/nitrocoro/core/Mutex.h:47-109 | A coroutine comes to own the mutex only by taking it unlocked or by being the head of the service list of an `unlock`. |
| MutexProtocol.UnlockedMeansServed | include/nitrocoro/core/Mutex.h:40-45 | While unlocked nobody is suspended, all enqueues are served and the waiter list is null, as the destructor asserts. |
| MutexProtocol.RunKeepsInv | include/nitrocoro/core/Mutex.h:47-109 | The invariant over memory, lists and program points holds in every reachable state. |
| MpscQueue.RefinesFifo | include/nitrocoro/core/MpscQueue.h:34-55 | Every step of the two-step queue is a step of a plain queue whose enqueue is the tail exchange and whose dequeue is the head move. |
| MpscQueue.PoppedIsPrefix | include/nitrocoro/core/MpscQueue.h:41-55 | What was popped is always a prefix of the order of tail exchanges, each value once. |
| MpscQueue.NoUseAfterFree | include/nitrocoro/core/MpscQueue.h:34-55 | The node that a half-done push will write to is still allocated and its next pointer is null. |
| MpscQueue.FlightIsSafe | include/nitrocoro/core/MpscQueue.h:36-38 | The same for any state that satisfies the invariant, for the predecessor and for the new node. |
| MpscQueue.WhenUnreachable | include/nitrocoro/core/MpscQueue.h:41-61 | `pop` and `empty` find nothing if and only if the queue is empty or the push whose turn it is stopped half way. |
| MpscQueue.RunKeepsInv | include/nitrocoro/core/MpscQueue.h:34-55 | The linking invariant holds in every reachable state. |
| SchedulerLoop.NoTaskLostToSleep | src/Scheduler.cc:113-156 | While the loop sleeps with a zero eventfd and something could be popped, a foreign thread has linked a node and still owes its write, also when the loop's own pushes sit behind a half-linked foreign one. |
| SchedulerLoop.SleepsOnlyWhenDone | src/Scheduler.cc:65-80 | If besides no foreign thread is inside `schedule`, then every task and timer ever pushed was taken. |
| SchedulerLoop.TasksRunInOrder | src/Scheduler.cc:131-137 | Tasks run in the order of their pushes, each at most once. |
| SchedulerLoop.RunKeepsInv | src/Scheduler.cc:176-219 | The wake-up invariant holds in every reachable state of the loop and the threads around it. |
| PipeProtocol.NeverStranded | include/nitrocoro/core/Pipe.h:63-97 | A suspended receiver that nobody is resuming has its handle in the waiter slot, and if an item or the close can be seen some sender is about to look there. |
| PipeProtocol.ResumedExactlyOnce | include/nitrocoro/core/Pipe.h:68-97 | Each suspension ends exactly once, inline or by one resumption, never both; at most one resumption is ever queued. |
| PipeProtocol.QuietMeansDrained | include/nitrocoro/core/Pipe.h:42-97 | When all senders have returned, a suspended receiver has received everything and the pipe is open. |
| PipeProtocol.ReceivedInOrder | include/nitrocoro/core/Pipe.h:49-89 | What is received is a prefix of what was sent, in the order of the pushes. |
| PipeProtocol.NulloptOnAnOpenPipe | include/nitrocoro/core/Pipe.h:86-97 | A reachable state in which a late wake has resumed a receiver that has taken everything, and `recv` is about to yield nullopt on an open pipe. |
| PipeProtocol.NulloptBeforeAnItem | include/nitrocoro/core/Pipe.h:42-97 | A reachable state in which a sender has linked and announced its item, another is inside its push in front of it, and the receiver it woke is about to yield nullopt on the open pipe. |
| PipeProtocol.NulloptIff | include/nitrocoro/core/Pipe.h:86-89 | In every run `recv` yields nullopt if and only if all items are taken or the push whose turn it is stopped half way, its sender being inside `send`. |
| PipeProtocol.WholeIsFine | include/nitrocoro/core/Pipe.h:42-56 | An uninterrupted send or close is a sequence of the fine steps, so the coarse runs are among the fine ones. |
| PipeProtocol.NulloptMeansEnd | include/nitrocoro/core/Pipe.h:86-89 | With uninterrupted senders `recv` yields nullopt if and only if the pipe is closed and drained. |
| PipeProtocol.RunKeepsInv | include/nitrocoro/core/Pipe.h:42-97 | The invariant on handle, queue and owed wakes holds in every reachable state. |
| OneShotList.OneWinner | include/nitrocoro/core/LockFreeList.h:39-42 | Of all threads that close the list at most one gets it, and it is closed then. |
| OneShotList.WalksLiveNodes | include/nitrocoro/core/LockFreeList.h:27-47 | The closer reads a node only while its awaiter is suspended and has not been scheduled. |
| OneShotList.WalkCoversAll | include/nitrocoro/core/LockFreeList.h:27-47 | After the walk the nodes scheduled are exactly those pushed, newest first, each once. |
| OneShotList.ScheduledAtMostOnce | include/nitrocoro/core/LockFreeList.h:27-47 | No node is scheduled twice, and none that was not pushed. |
| OneShotList.FreeStepKeepsInv | include/nitrocoro/core/LockFreeList.h:27-47 | Pushes, spurious failures and walk steps of any thread keep the list invariant. |
| FutureProtocol.ExactlyOneSetterSucceeds | include/nitrocoro/core/Future.h:258-278 | Of competing set_value and set_exception calls one wins and the others fail only because of it; the stored result is the winner's argument. |
| FutureProtocol.ScheduledAfterStore | include/nitrocoro/core/Future.h:258-278 | A waiter is scheduled at most once, and only after the result is stored. |
| FutureProtocol.SetterWakesEveryone | include/nitrocoro/core/Future.h:37-48 | When the setter returns, every waiter whose push came before the close has been scheduled exactly once. |
| FutureProtocol.ResumeAllTouchesLiveNodes | include/nitrocoro/core/Future.h:37-48 | The resume loop never touches a node after scheduling it. |
| FutureProtocol.SuspendedReadsResult | include/nitrocoro/core/Future.h:76-94 | Every awaiter that was suspended reads the winner's result. |
| FutureProtocol.LateAwaiterReads | include/nitrocoro/core/Future.h:76-94 | An awaiter that finds the list closed reads a result if and only if the setter is not between close and store. |
| FutureProtocol.LateAwaiterCanMissResult | include/nitrocoro/core/Future.h:258-278 | A run in which such an awaiter reads nothing. |
| CancelProtocol.RunsAtMostOnce | include/nitrocoro/core/CancelToken.h:53-108 | Under any interleaving of cancel, addCallback and unregister a callback runs at most once, and not at all after unregister won. |
| CancelProtocol.RunsUnlessUnregistered | include/nitrocoro/core/CancelToken.h:88-108 | After cancel and a drain of the schedulers every registered callback, early or late, has run exactly once unless unregister won. |
| CancelProtocol.WaitersResumedExactlyOnce | include/nitrocoro/core/CancelToken.h:210-228 | Every waiter is resumed at most once, and exactly once when cancel has returned. |
| CancelProtocol.CallbacksBeforeWaiters | include/nitrocoro/core/CancelToken.h:53-86 | A waiter is resumed only after all callbacks were fired or handed to their schedulers. |
| CancelProtocol.RunKeepsInv | include/nitrocoro/core/CancelToken.h:53-171 | The invariant that every registration is in one place and its flag decides who runs it holds in every reachable state. |
| RadixTree.NextSegment | extensions/http/src/RouterCore.cc:13-23 | The loop returns the segment that the recursive definition of a path gives, and the position of the rest. |
| RadixTree.ParseRendered | extensions/http/src/RouterCore.cc:44-89 | Every pattern, pieces that can be told apart with a wildcard at most last, is read back from its simplest writing. |
| RadixTree.ParseJoined | extensions/http/src/RouterCore.cc:44-89 | Segments with a slash before each, and then the end, a last slash or two slashes and anything, are read as their pieces in order, parameter, wildcard or text by their first character, and nothing behind a wildcard. |
| RadixTree.PathIsJoined | extensions/http/src/RouterCore.cc:13-23 | Every path that is empty or begins with a slash is such a joining, so its reading is fixed. |
| RadixTree.ParsedIsPattern | extensions/http/src/RouterCore.cc:44-89 | And nothing else is ever read, from any path. |
| RadixSearch.MatchIsBest | extensions/http/src/RouterCore.cc:94-144 | In any sorted tree the backtracking search returns nothing if and only if no candidate below the node binds the path, and then the parameters minus every name tried; otherwise a candidate that none is preferred to. |
| RadixSearch.ParamsAreBest | extensions/http/src/RouterCore.cc:125-132 | The same for the loop over parameter children, where each child that fails takes the names tried below it away. |
| RadixBindings.AfterIs | extensions/http/src/RouterCore.cc:119-144 | After a successful search a name is bound as the pattern found binds it, unless a branch preferred to it beyond its last binding of the name tried the name; names it does not bind are as before unless some such branch tried them. |
| RadixBindings.BindFilled | extensions/http/src/RouterCore.cc:94-144 | A pattern whose parameters and wildcard are filled with values binds the path so made, and to those values. |
| Router.InsertChangesOneRoute | extensions/http/src/RouterCore.cc:44-89 | Inserting a pattern changes the route of that pattern and of no other. |
| Router.InsertMakesOneBranch | extensions/http/src/RouterCore.cc:44-89 | Insertion makes the nodes of the beginnings of its pattern and no others. |
| Router.InsertKeepsOrdered | extensions/http/src/RouterCore.cc:44-89 | Insertion keeps every level of children sorted by name without repetition. |
| Router.ScanRecords | extensions/http/src/RouterCore.cc:25-89 | What a scan finds for a pattern is the id of the last registration of it, none if there is none, and the methods of all of them. |
| Router.ScanExactRecords | extensions/http/src/RouterCore.cc:148-180 | The same for a path without parameters, and it is found if and only if it was registered. |
| Router.LookupAnswers | extensions/http/src/RouterCore.cc:215-220 | Of such a record: matched if and only if a registration lists the method, or GET when HEAD is asked for; then the last id, otherwise none and exactly the methods listed. |
| Router.BuildAgreesWithScan | extensions/http/src/RouterCore.cc:44-89 | For every pattern the tree built by a sequence of registrations holds what a scan of that sequence says. |
| Router.BuildHasBranches | extensions/http/src/RouterCore.cc:44-89 | The tree of a sequence of registrations has a node if and only if one of its patterns begins with the pieces that lead there. |
| Router.SearchAgreesWithScan | extensions/http/src/RouterCore.cc:94-144 | For all registrations and all paths: the search fails if and only if no pattern matches, and otherwise gives the route of the winner, static over parameter over wildcard position by position, and exactly those of its bindings that no registered pattern makes it lose. |
| Router.LosesIff | extensions/http/src/RouterCore.cc:119-144 | A binding is lost in the search of the tree if and only if, as can be read off the registrations and the path, a pattern that agrees beyond it is preferred at the next position and binds the name again where the path still reaches. |
| Router.LoserRepeatsName | extensions/http/src/RouterCore.cc:125-132 | Only a pattern that names a parameter twice makes another lose a binding. |
| Router.DistinctNamesLoseNothing | extensions/http/src/RouterCore.cc:94-144 | If every registered pattern has distinct names, the winner keeps all its bindings. |
| Router.PreferenceIsStrict | extensions/http/src/RouterCore.cc:94-144 | Two different patterns that match one path are never each preferred to the other. |
| Router.WinnerIsUnique | extensions/http/src/RouterCore.cc:94-144 | So there is only one winner, and the search cannot depend on anything else. |
| Router.RepeatedNameLosesBinding | extensions/http/src/RouterCore.cc:125-132 | For all names a and r and all two-segment paths: with the routes /:a/:a/z and /:a/*r the second is returned but its binding of a is gone. |
| Router.TwoRoutesIsBuilt | extensions/http/src/RouterCore.cc:44-89 | The tree of that family is the one that two registrations build. |
| Router.IsParamOrWild | extensions/http/src/RouterCore.cc:155-163 | The marker loop finds a colon or star exactly at the start of the pattern or behind a slash. |
| Router.MatchRadix | extensions/http/src/RouterCore.cc:94-144 | The loops over children compute the recursive search. |
| Router.RouterCore.AddRoute | extensions/http/src/RouterCore.cc:148-180 | An invalid method is refused and changes nothing; otherwise the registration is recorded under a fresh id. |
| Router.RouterCore.Match | extensions/http/src/RouterCore.cc:210-254 | For all registrations, without reference to the tree: a path registered as it stands is answered for itself, else for the one winning pattern with the bindings it keeps, else nothing matches; too long a path never does. An answer is matched if and only if some registration of the target lists the method, or GET for a HEAD request, and has the id of the last registration of it; otherwise no id and exactly the methods offered. |
| ByteIO.StringBuffer.PrepareWrite | include/nitrocoro/utils/StringBuffer.h:43-61 | The room asked for is there and the unread bytes are as they were; the buffer grows only if they and the room do not fit, and nothing moves if there was room. |
| ByteIO.StringBuffer.CommitWrite | include/nitrocoro/utils/StringBuffer.h:64-70 | The bytes written follow the unread ones. |
| ByteIO.StringBuffer.Consume | include/nitrocoro/utils/StringBuffer.h:36-40 | Exactly the first n unread bytes are gone. |
| ChunkedFormat.FindInPart | include/nitrocoro/utils/StringBuffer.h:28-33 | A line end found in a part of the input is the first one of the whole, and one not found there is past all but the last byte. |
| ChunkedFormat.MessageParsed | extensions/http/src/body_reader/ChunkedReader.cc:11-139 | Every message of the grammar, with any size lines, chunk ends and trailers, parses to its body and leaves what follows it. |
| ChunkedFormat.MessageFound | extensions/http/src/body_reader/ChunkedReader.cc:11-139 | Whatever parses is a message of the grammar: with MessageParsed, the parser accepts exactly the grammar. |
| ChunkedFormat.StrictIsLenient | extensions/http/src/body_reader/ChunkedReader.cc:13-34 | What is accepted however the bytes are split is accepted, with the same result, by the limits of the luckiest split. |
| ChunkedFormat.SizeIsRead | extensions/http/src/body_reader/ChunkedReader.cc:33-35 | The hexadecimal conversion inverts the writer's printing for every 64-bit size. |
| ChunkedFormat.NumeralIsRead | extensions/http/src/body_reader/ChunkedReader.cc:33-35 | Behind any space, with or without sign and 0x, and before anything that is no digit, a size line has the value of its digits, a minus negating it modulo 2^64; from 2^64 on it is an error. |
| ChunkedFormat.NoNumeral | extensions/http/src/body_reader/ChunkedReader.cc:33-35 | A line without digits there has no size. |
| ChunkedWriting.SizeLineIsExact | extensions/http/src/body_writer/ChunkedWriter.cc:16-22 | The size line printed into 16 bytes is right if and only if the chunk is below 2^52 bytes. |
| ChunkedWriting.RoundTrip | extensions/http/src/body_writer/ChunkedWriter.cc:11-28 | For every list of writes below that bound, empty ones included, what is sent parses to their concatenation and leaves exactly what follows. |
| ChunkedWriting.ChunkedWriter.Write | extensions/http/src/body_writer/ChunkedWriter.cc:11-23 | The wire stays the encoding of all writes so far. |
| ChunkedWriting.ChunkedWriter.End | extensions/http/src/body_writer/ChunkedWriter.cc:25-28 | The wire then parses, before any continuation, to the concatenation of the writes. |
| BodyReader.ChunkedReader.AwaitLine | extensions/http/src/body_reader/ChunkedReader.cc:15-30 | However bytes arrive, a line that fits the limit with its end is found where the whole input has it, at once if it is buffered; a full buffer without a line end is given up. |
| BodyReader.ChunkedReader.ParseChunkSize | extensions/http/src/body_reader/ChunkedReader.cc:11-51 | A size line is consumed as the reference parser does; failure means that the strict parser refuses the input; 64 buffered bytes without a line end always fail, and a buffered line is taken if and only if it has no more than 64 bytes and a size. |
| BodyReader.ChunkedReader.SkipCrlf | extensions/http/src/body_reader/ChunkedReader.cc:53-64 | Exactly two bytes are skipped, and it fails if and only if fewer are left. |
| BodyReader.ChunkedReader.SkipTrailer | extensions/http/src/body_reader/ChunkedReader.cc:66-92 | Success leaves the input where the lenient parser's trailer ends; failure means that the strict one refuses it. |
| BodyReader.ChunkedReader.ReadImpl | extensions/http/src/body_reader/ChunkedReader.cc:94-139 | What a read returns extends the body taken so far as the reference parser has it; it returns nothing only at the end, and fails only on a body the strict parser refuses. |
| BodyReader.ChunkedReader.Read | extensions/http/src/Http1BodyReader.cc:46-52 | The same for a caller's read, which returns nothing once complete or draining. |
| BodyReader.ChunkedReader.Drain | extensions/http/src/Http1BodyReader.cc:54-65 | After any mix of reads, draining leaves buffer plus stream exactly at the first byte after the message, and all bytes taken are the body. |
| BodyReader.DrainedIsWritten | extensions/http/src/body_writer/ChunkedWriter.cc:11-28 | Applied to what a writer sent: the reader has taken the concatenation of the writes and stands at the next message. |
| BodyReader.ContentLengthReader.ReadImpl | extensions/http/src/body_reader/ContentLengthReader.cc:11-33 | A read returns the next bytes of the input and never one past the content length; it fails only if the input is too short. |
| BodyReader.ContentLengthReader.Read | extensions/http/src/Http1BodyReader.cc:46-52 | The same for a caller's read, which returns nothing once complete or draining. |
| BodyReader.ContentLengthReader.Drain | extensions/http/src/Http1BodyReader.cc:54-65 | Succeeds if and only if the input holds the whole body, and then stands at the next message. |
| HpackInt.IntRoundTrip | extensions/http2/src/hpack/Hpack.cc:49-65 | Decoding inverts encoding for every 64-bit value and prefix of 1 to 8 bits, consumes exactly its bytes, and keeps the bits above the prefix. |
| HpackInt.EncodeInt | extensions/http2/src/hpack/Hpack.cc:190-207 | The loop appends the groups of the recursive definition. |
| HpackInt.DecodeInt | extensions/http2/src/hpack/Hpack.cc:49-65 | The loop returns value and position of the recursive reading, also for truncated input, in 64-bit arithmetic. |
| Huffman.PutCode | extensions/http2/src/hpack/Hpack.cc:217-219 | Or-ing a shifted code into the 64-bit accumulator puts its bits behind the pending ones and loses none. |
| Huffman.HuffmanEncode | extensions/http2/src/hpack/Hpack.cc:209-229 | The bytes written are the concatenated codes and fewer than eight ones. |
| HuffmanDecoding.DecodesExactly | extensions/http2/src/hpack/Hpack.cc:18-40 | For every automaton that matches a prefix-free code: decoding gives s if and only if the bits are the code of s padded with fewer than eight ones. |
| HuffmanDecoding.HuffmanDecode | extensions/http2/src/hpack/Hpack.cc:18-40 | The loop over bytes computes the run of the automaton over half bytes, with its error cases. |
| HuffmanDecoding.RunExplained | extensions/http2/src/hpack/Hpack.cc:24-35 | At any point the bits read are the code of what is out and then the bits of the state. |
| HpackTable.FitIsLongest | extensions/http2/src/hpack/HpackTable.cc:139-146 | The entries that stay are a newest-first prefix that fits, and a prefix is among them if and only if it fits. |
| HpackTable.DynamicTable.Evict | extensions/http2/src/hpack/HpackTable.cc:139-146 | Eviction leaves the longest newest-first prefix that fits, and the size field its exact size. |
| HpackTable.DynamicTable.Insert | extensions/http2/src/hpack/HpackTable.cc:118-131 | After an insert the table is the longest prefix that fits of the new entry and the old ones, also when the entry is too large. |
| HpackTable.DynamicTable.SetMaxSize | extensions/http2/src/hpack/HpackTable.cc:133-137 | After a resize it is the longest prefix that fits the new limit. |
| HpackTable.DynamicTable.Find | extensions/http2/src/hpack/HpackTable.cc:90-116 | A positive index is that of the entry and exists if and only if the entry is there; a negative one names an entry with the name; zero means none has it. |
| HpackTable.DynamicTable.Lookup | extensions/http2/src/hpack/HpackTable.cc:81-88 | Static entries 1 to 61, dynamic ones after them newest first, all other indices refused. |
| Hpack.TextRoundTrip | extensions/http2/src/hpack/Hpack.cc:67-82 | A string is read back from either of its encodings, and what follows it is left. |
| HpackBlock.FieldRoundTrip | extensions/http2/src/hpack/Hpack.cc:124-181 | Every right representation of a field is read back as that field, with the encoder's own change to the table. |
| HpackReading.RepIsRead | extensions/http2/src/hpack/Hpack.cc:124-181 | Every representation a peer may write, indexed, literal of either indexing with its own or an indexed name in any coding, or size update, is read as the field it stands for with the table it leaves, and refused if its index is none, or if it is a size update behind a regular field or above the limit. |
| HpackReading.AnyBlockIsRead | extensions/http2/src/hpack/Hpack.cc:124-181 | Any sequence of such representations, each acceptable where it stands, is read as their fields in order, and what follows it from the table they leave. |
| HpackReading.RefusedBlock | extensions/http2/src/hpack/Hpack.cc:124-181 | One that is refused there makes the whole block fail, whatever follows it. |
| HpackLockstep.BlockRoundTrip | extensions/http2/src/hpack/Hpack.cc:249-313 | A whole response block is read back field by field, extras included, whatever the table; the reader's table gains the extras. |
| HpackLockstep.Lockstep | extensions/http2/src/hpack/Hpack.cc:249-310 | From equal tables, over every sequence of blocks: after each of them the decoder has returned the lists encoded and has the encoder's table, if and only if every block is in step. |
| HpackLockstep.ExtrasInGeneral | extensions/http2/src/hpack/Hpack.cc:296-310 | After extras the peer's table is as many of them, and of the entries behind them, as fit. |
| HpackLockstep.InStepExactly | extensions/http2/src/hpack/Hpack.cc:296-310 | After a block the tables are equal if and only if it is in step: it has no extras, or its newest extras are the very entries of the table in order and not one more fits. |
| HpackLockstep.StaysDistinct | extensions/http2/src/hpack/Hpack.cc:249-294 | The encoder's table never holds an entry twice. |
| HpackLockstep.NewestIsMisread | extensions/http2/src/hpack/Hpack.cc:296-310 | With room for the extras, the encoder's newest entry is sent as index 62 and read as the last extra. |
| HpackCodec.EncodeText | extensions/http2/src/hpack/Hpack.cc:209-247 | What is appended is a right encoding of the string, and Huffman if and only if that is shorter. |
| HpackCodec.DecodeText | extensions/http2/src/hpack/Hpack.cc:67-82 | Result and position are those of the reading, and failures are its failures. |
| HpackCodec.Encoder.EncodeField | extensions/http2/src/hpack/Hpack.cc:275-293 | A field is sent in a right representation and the table goes through its one change; one that is not in the table is sent as a literal with indexing, its name by index if some entry has it. |
| HpackCodec.Encoder.EncodeResponse | extensions/http2/src/hpack/Hpack.cc:249-313 | The bytes are a right block of status, unfiltered headers in order, content length and cookies; the table goes through the fields and not the extras. |
| HpackCodec.Decoder.DecodeField | extensions/http2/src/hpack/Hpack.cc:130-178 | Each representation is read, or refused, and changes the table as the reading of whole blocks has it, which `RepIsRead` pins for everything a peer can write. |
| HpackCodec.Decoder.Decode | extensions/http2/src/hpack/Hpack.cc:124-181 | The loop returns the fields of the block and leaves the table of its reading, or fails where that fails. |
| Http2Wire.FrameRoundTrip | extensions/http2/src/frame/FrameReader.cc:52-69 | A frame within the reader's limit is read back, with exactly what follows it left, if and only if its payload is below 2^24 bytes and its id below 2^31. |
| ByteIO.ByteStream.ReadExact | extensions/http2/src/frame/FrameReader.cc:12-24 | However bytes arrive all of them are gathered, and it fails if and only if the stream is too short. |
| Http2Wire.FrameReader.ReadFrame | extensions/http2/src/frame/FrameReader.cc:26-50 | The reading is that of the whole byte string: end, oversized or a frame, and the stream stands behind it. |
| Http2Wire.WireIsInLockOrder | extensions/http2/src/Http2Session.cc:582-631 | In every interleaving of senders, each frame written in two writes any of which may fail half way, the wire is what the lock holders wrote one after another in lock order, each its frames from the first byte on, and all of them unless its own write failed or it still holds the lock. |
| Http2Wire.ReadBackExactly | extensions/http2/src/Http2Session.cc:582-631 | At every moment of every run the wire is all frames in lock order, and the reader gets exactly them, if and only if every turn wrote all its frames, whether or not a write reported a failure. |
| Http2Wire.LastTurnCut | extensions/http2/src/Http2Session.cc:582-631 | While at most the last turn is incomplete the reader gets the first of the frames in lock order and nothing else. |
| Http2Wire.CutFrameIsFilled | extensions/http2/src/Http2Session.cc:582-631 | For every frame with a payload and every one that follows: a run in which the first fails behind its header, the second is written whole, and the reader gets the first with the beginning of the second as its payload, and not the two. |
| Http2Wire.ReadsAllBack | extensions/http2/src/frame/FrameReader.cc:26-50 | The reader gets back exactly those frames in that order. |
| Http2History.AtMostTwoGoAways | extensions/http2/src/Http2Session.cc:600-614 | Of all that a session wrote no three are GOAWAYs, and each names the last stream id. |
| Http2History.BodyRead | extensions/http2/src/Http2BodyReader.h:26-51 | Reading keeps every stream's body in order: what is taken is a prefix of what has arrived, and the end is reported only at the end of the stream. |
| Http2History.ContentIs | extensions/http2/src/Http2Session.cc:344-375 | The content of a frame is data if and only if its payload is fields and data, or the padding length, fields, data and so much padding. |
| Http2History.SettingsRead | extensions/http2/src/Http2Session.cc:402-448 | Settings are taken in order: faultless ones leave the last frame size among them and what follows decides the rest. |
| Http2History.FaultySetting | extensions/http2/src/Http2Session.cc:402-448 | The first that is out of its limits decides the error, and nothing behind it counts. |
| Http2Reaction.AdvancesWith | extensions/http2/src/Http2Session.cc:190-259 | What a session owes to one frame moves its header blocks as the frames alone say: begun by HEADERS with the greatest odd id so far, continued by CONTINUATIONs on that id, given to HPACK at END_HEADERS. |
| Http2History.TotalPick | extensions/http2/src/Http2Session.cc:377-393 | The bytes accepted on all streams, as a sum, do not depend on the order of summation. |
| Http2Session.Session.Run | extensions/http2/src/Http2Session.cc:56-188 | Over any frames, header verdicts, failed writes and handlers that read, respond and end streams in between: the blocks given to HPACK, their streams and their bytes, are those that the frames carry; what a handler has read of each stream is a prefix of the contents of its DATA frames; the connection's window updates add up to the bytes accepted on all streams; the ids opened are those of the acceptable blocks, and no nonzero one is opened twice; of the blocks exactly those of nonzero streams are one HEADERS and its CONTINUATIONs; no three frames sent are GOAWAYs; no frame is processed once the flag is set. |
| Http2Session.Session.Process | extensions/http2/src/Http2Session.cc:56-188 | One frame keeps all of that. State, answers and block given are those the reaction to the frame owes, unless a write failed; the loop goes on if and only if the reaction does and none did; a block without HEADERS goes to HPACK if and only if the frame is a stray CONTINUATION on stream zero. |
| Http2Session.Session.HandleHeaders | extensions/http2/src/Http2Session.cc:190-246 | Even and finished ids are refused with GOAWAY and leave the last id; an open one and one that depends on itself are answered by RST_STREAM and give no block; a new id becomes the last one, and its fragment is given to HPACK if END_HEADERS is set and kept for CONTINUATIONs if not. GOAWAY is due exactly for a refused id, bad padding or a block that does not decode. |
| Http2Session.Session.HandleContinuation | extensions/http2/src/Http2Session.cc:248-259 | On the id being collected the payload is added, and the whole given to HPACK exactly at END_HEADERS; on any other GOAWAY is due and nothing given. |
| Http2Session.Session.Finalise | extensions/http2/src/Http2Session.cc:261-342 | Exactly one block is given; its stream opens if and only if the block is acceptable, with a body unless the headers were all; an undecodable one is answered by GOAWAY, an unacceptable one by RST_STREAM. |
| Http2Session.Session.HandleData | extensions/http2/src/Http2Session.cc:344-400 | An open stream's reader is pushed the content without padding and closed at END_STREAM, no other stream changes, and the window updates for stream and connection are of that size; GOAWAY goes out exactly for stream zero, an id never seen, or bad padding. |
| Http2Session.Session.ReadBody | extensions/http2/src/Http2BodyReader.h:26-51 | A handler's read of any size continues what it has read, which stays a prefix of the contents of the stream's DATA frames; an empty read comes only after END_STREAM and when all of them have been read. |
| Http2Session.Session.HandleSettings | extensions/http2/src/Http2Session.cc:402-448 | GOAWAY exactly for a wrong stream, a wrong length or a faulty value, else one acknowledgement; the peer's frame size becomes the last one named before the first fault. |
| Http2Session.Session.HandlePing | extensions/http2/src/Http2Session.cc:450-467 | GOAWAY exactly for a wrong stream or length, else one answer with the same payload unless it was one. |
| Http2Session.Session.HandleWindowUpdate | extensions/http2/src/Http2Session.cc:95-123 | GOAWAY exactly for a wrong length, an unknown stream or a zero increment. |
| Http2Session.Session.HandleRst | extensions/http2/src/Http2Session.cc:127-147 | The stream is dropped exactly if it was there and the frame well formed, else GOAWAY. |
| Http2Session.Session.HandlePriority | extensions/http2/src/Http2Session.cc:151-173 | GOAWAY exactly for stream zero; RST_STREAM with its code exactly for a wrong length or a stream that depends on itself. |
| Http2Session.Session.SendGoAway | extensions/http2/src/Http2Session.cc:600-614 | The flag is set first, and what is written names the last stream id. |
| Http2Body.BodyReader.Read | extensions/http2/src/Http2BodyReader.h:26-51 | The reader with its fields in place returns and leaves what the reader as a value does, which the streams of a session own and `SomeIsRead` is about. |
| Http2Body.SomeIsRead | extensions/http2/src/Http2BodyReader.h:26-51 | A read of any size returns the next bytes of what was pushed and loses none; none are returned, when some are asked for, only when all have been taken and the pipe is closed. |
| Pool.PoolState.Dispatch | extensions/pg/src/PoolState.cc:14-67 | The oldest waiter that is not cancelled gets the oldest idle connection, else a connect if there is room, else waits on, and nothing else changes; no settled promise is set again; afterwards no one waits while a connection is idle or may be made. |
| Pool.PoolState.Acquire | extensions/pg/src/PgPool.cc:33-59 | A caller is served at once if a connection is idle or may be made, and else is the last to wait; with a token that is cancelled already it takes nothing; count, places, waiters and service stay in order. |
| Pool.PoolState.Cancel | extensions/pg/src/PgPool.cc:44-51 | A cancellation at any time keeps all of that, and throws if and only if the promise is set, the waiter was not cancelled before and its acquire has not come back. |
| Pool.CancelCanThrow | extensions/pg/src/PgPool.cc:44-51 | From an empty pool: a cancellation after the connect has ended and before the caller resumes throws. |
| Pool.PoolState.ConnectEnds | extensions/pg/src/PoolState.cc:30-65 | A finished connect settles its waiter once, with the connection or the failure; a connection for a cancelled waiter goes to the oldest one waiting, else it is idle; a failure leaves its room to the oldest one waiting, else the count drops. |
| Pool.PoolState.PickUp | extensions/pg/src/PgPool.cc:56-58 | The connection in the promise becomes a borrowed one. |
| Pool.PoolState.Breaks | extensions/pg/src/PooledConnection.cc:12-19 | A broken borrowed connection is accounted for, and its room kept, until the pool is told. |
| Pool.PoolState.Release | extensions/pg/src/PooledConnection.cc:21-25 | A whole connection is on its way back and no longer borrowed; a broken one is dropped and returned nowhere. |
| Pool.PoolState.ReturnArrives | extensions/pg/src/PoolState.cc:69-89 | A live connection goes to the oldest one waiting, else it is idle; a dead one is dropped, and its room goes to a connect for the oldest one waiting, else the count drops; no other connection or waiter is touched. |
| Pool.PoolState.DetachArrives | extensions/pg/src/PoolState.cc:91-100 | One notice of a broken connection is used up; its room goes to a connect for the oldest one waiting, else the count drops. |
| Pool.ExactlyOnePlace | extensions/pg/src/PoolState.cc:14-100 | Every connection made and not dropped is in exactly one place, once, and nothing else is in any. |
| Dns.Resolver.Resolve | src/DnsResolver.cc:186-230 | A caller is answered at once, with the entry's addresses, exactly from a fresh entry; else it is the last to wait for the key, and a lookup starts exactly if none was outstanding. No other key, caller or answer owed is touched. |
| Dns.Resolver.LookupEnds | src/DnsResolver.cc:79-184 | The key's only lookup ends; exactly its waiters become owed what was found, or the failure, and what others are owed stays; an answer enters cache and expiry queue together, a failure neither. |
| Dns.Resolver.SettleOne | src/DnsResolver.cc:165-183 | A promise is set only if it was not set before, and addresses only to callers of the key they were found for. |
| Dns.Resolver.Purge | src/DnsResolver.cc:152-164 | After a purge at time now the cache is exactly the entries that expire later, although the queue may hold stale times of renewed keys. |
| WsFrame.FrameRoundTrip | extensions/websocket/src/WsConnection.cc:43-161 | For all three length forms, every mask key and both roles a frame is read back by the side it is meant for and refused by the other. |
| WsFrame.BuildFrame | extensions/websocket/src/WsConnection.cc:116-161 | The sender's loops build the bytes of the frame. |
| WsFrame.ApplyMask | extensions/websocket/src/WsConnection.cc:89-91 | The masking loop gives each byte combined with its byte of the key. |
| WsFrame.MaskedTwice | extensions/websocket/src/WsConnection.cc:89-91 | Masking twice with one key gives the data back. |
| WsFrame.XorBits | extensions/websocket/src/WsConnection.cc:89-91 | The combination of two bytes has a bit set if and only if they differ in it. |
| WsFrame.Truncated | extensions/websocket/src/WsConnection.cc:50-91 | Every proper beginning of a frame, cut anywhere, is seen to be cut. |
| WsConnection.MessageReceived | extensions/websocket/src/WsConnection.cc:43-112 | A well-formed message, in any fragments and with any pings and pongs among them, is received as the concatenation with the type of the first fragment, the pings answered in order and the stream left behind it, if and only if no pong is among them. |
| WsConnection.PongEndsMessage | extensions/websocket/src/WsConnection.cc:93-110 | Otherwise the result is text, the data up to the first pong and the pong's payload; the pings before it are answered, and the frames after it are left on the stream. |
| WsConnection.Interrupted | extensions/websocket/src/WsConnection.cc:43-112 | After any frames with which a message may begin and go on: a close frame ends the connection there, a frame masked by the wrong side is a violation, one cut off anywhere is a lost connection; no data is returned, and the pings so far are answered. |
| WsConnection.Connection.SendFrame | extensions/websocket/src/WsConnection.cc:116-161 | What has been written is always the encoding of the frames sent, the last of them with this opcode and payload. |
| WsConnection.Connection.NextFrame | extensions/websocket/src/WsConnection.cc:50-91 | The frame taken off the stream, in any portions, is the one that the reader of whole byte strings finds. |
| WsConnection.Connection.Receive | extensions/websocket/src/WsConnection.cc:43-112 | The result is what receiving means for the bytes of the stream, and the frames sent are the pongs in order, and a close if masking was wrong. |

## Left out

- Memory orders weaker than sequential consistency and details of coroutine frames.
- Scheduler shutdown, destruction of a pool, resolver or session while work is outstanding, and expiry of weak references.
- The receiver of a pipe runs on the scheduler that resumes it; a pipe used otherwise is not modelled.
- Sockets, TLS, libpq and getaddrinfo: streams are byte sequences with any read sizes, connects and lookups have any outcome.
- Router.RouterCore.Match: regex routes, and the order and spelling of the allowed-methods string, which is kept as a set.
- Update in place of tree nodes: the radix tree is a value that `insertRadix` maps to a new one.
- HpackCodec.Decoder.Decode: returns the list of fields; the pseudo-header checks of `applyHeader`, with which the source refuses a block, and the header map are not modelled.
- The contents of the Huffman tables and of the static table: the results hold for all tables that meet the stated conditions.
- HpackInt.DecodeInt: a shift by 64 or more, which an overlong integer leads to and C++ leaves undefined, adds nothing here.
- HpackCodec.DecodeText: the sum of position and length is not wrapped at 64 bits.
- HpackCodec.Encoder.EncodeResponse: values are given as text; printing of numbers and cookies is not modelled, and the header map's order is the order given.
- Http2Session.Session.HandleHeaders: bytes that the source reads past the end of a short payload are arbitrary.
- Http2Session.Session.HandleData: a handler that ends the stream while the window updates are being written acts after them here; in the source the stream is then used after it was erased, which has no meaning to model.
- Http2Session.Session.ReadBody: a reader that outlives its handler. The end of the handler closes the pipe, so such a reader can find the end before END_STREAM.
- Http2Session.Session.Finalise: whether a block decodes and its fields are acceptable is left open, so the HPACK theorems are not composed with the session's.
- UntilClose bodies, trailers' contents, and the HTTP/1 parser that chooses the reader.
- The client side of HTTP/2, flow control of what is sent, and splitting of large header blocks.
- WebSocket handshake, shutdown and close codes; allocation for announced payload lengths.
- Threads that serialise `read` and `drain` through the reader's mutex: each call is one step here.
