# Verification models of the C++ utility repository

Dafny models of four programs of the repository, and proofs about them.  `dafny verify
dfyconfig.toml` checks all of it.

1. **The echo server with worker threads** (`dev_examples/libevent_multithreads`).  One I/O thread
   cuts the bytes of each connection into frames, gives each frame's body to the worker of its
   shard, and sends back what the workers return.  `FrameParser` has the resumable parser on
   values, `EchoProtocol` and `EchoCompletion` the server as a transition system of any number of
   workers and connections, `EchoCallbacks` the callbacks and the worker's loop body as code on
   shared objects, each of them and every sequence of them proved to be a run of the transition
   system.  `ReferenceServer` has the single-threaded server (`dev_examples/perf_libevent`) and the
   refinement between the two.
2. **The generated message codec** (`lite_test/protobuf_debugstring_test/src`).  `Wire` and
   `CodedStreams` have the primitives of the Protocol Buffers Encoding specification, `Messages` the
   two messages on values, `MessageObjects` and `FocusObjects` the generated classes with their
   parsers, serializers and string ownership, `MessageArena` any number of messages of both types,
   with the strings of their callers, under each mutator, parse and destruction.  `MessagePrograms`
   has any sequence of these and proves that the messages behave as independent values.
3. **The coroutine server** (`dev_examples/pyserver/src`).  `CoroutineServer` interleaves connection
   handlers that hold pooled connections and write two caches; `PoolSafety` and `SessionCaches`
   prove what every run keeps, `ServiceOutcomes` what a whole service call does.
   `ConnectionPools` has the pools as objects, `PackageFraming` the packages, `recvall` and the
   handler's loop, `PackageFilters` the checksum, compression and cipher filters.
4. **The hex dump** (`dev_examples/network_capture/example/sniffex.c`), in `HexDump`.

Nothing was executed: all results are proofs about the models.

## Assumptions

- The queues of the echo server are atomic FIFO queues with a blocking Get and a TryGet that signals
  empty; a write to a pipe waits until the pipe (65536 bytes) has room; callbacks of the I/O thread
  do not overlap; a buffer's length fits an `int`.
- The kernel never hands out a descriptor that is still open.  The stream results moreover assume
  that a descriptor is not handed out again while elements of its former connection are under way;
  `AcceptNeedsClean` shows that this is exactly what the invariant needs, and
  `ForeignFramesExactlyIfUnclean` that without it the new connection can be sent a foreign frame.
- Results about the bytes of one connection are for connections that send no header above 1024000
  (`Sane`).  The code returns from the callback on such a header with the stale body size in place;
  `ChunkIndependence` gives the exact condition under which that does no harm.  Other connections
  are not affected, and conservation, order and wake-ups are proved for all inputs.
- The wire-format primitives follow the Protocol Buffers Encoding specification (sections "Base 128
  Varints", "Message Structure", "Length-Delimited Records" and "Last One Wins").  A
  length-delimited record must fit into what is left of its message.  Presence bits are booleans.
  A repeated field is the runtime's: it keeps the messages it clears and hands them out again, in
  order, before it makes new ones.  No caller uses a pointer to a nested message after that was
  cleared away.
- `MergeFrom` is not called with the message itself, which the generated code checks.  A caller
  uses the pointer of `mutable_username` only until the next call on that message, and passes to
  `set_allocated_username` only strings that it owns.
- A backend call of a service succeeds, reports failure, or raises before or after it took effect;
  `commit` does not raise.  Each connection acts for one uid of its own.  A cache write or delete that
  raises can leave client and caches in disagreement, exactly in the cases of `TaintedExactly`: the
  uid is then `tainted` and the session claims no longer speak of it.
- The block ciphers invert on whole blocks and deflate inverts; both are parameters.  `adler32`
  returns a signed integer, as it does in Python 2.

## Where the code and its documentation differ

- `SerializeFilter` and `DeserializeFilter` only convert to and from JSON: their calls of the other
  filters are commented out, although the header of the file still describes the full format.  The
  filters are modelled in the order that those lines and that description give.
- After receiving a body the handler tests `header` where it means `req`, so a body cut short reaches
  the session as None.  With a session key that runs the logout service, once more before the one at
  the end; without one it raises.  The model does the same.
- The logout service tests the uid for truth, so uid 0 is never logged out (`OnlyZeroIsStranded`).
- The length of a dump row is computed as `16 % remaining`, which is 16 in every round of the loop.

## Model

| member | source | states |
|---|---|---|
| `Bytes.DecodeEncode32` | dev_examples/libevent_multithreads/thread_worker.cpp:20-23 | `ntohl` of what `htonl` wrote is the length itself, whatever bytes follow |
| `Bytes.EncodeDecode32` | dev_examples/libevent_multithreads/io_cb.cpp:63-68 | re-encoding a decoded header gives its four bytes back |
| `Bytes.Unsigned32Value` | dev_examples/libevent_multithreads/io_cb.cpp:63-67 | the decoded length is the number whose digits to the base 256 the four bytes are, the most significant first, computed without the decoder |
| `Bytes.BigEndian32Value` | dev_examples/libevent_multithreads/thread_worker.cpp:21-24 | the four bytes written are those digits of the length, computed without either function |
| `FrameParser.MoreInput` | dev_examples/libevent_multithreads/io_cb.cpp:57-112 | running the loop on more bytes first does all it did before, then continues from the state it had stopped in; a refused header stops it for good in that call |
| `FrameParser.RefusesUnlessSane` | dev_examples/libevent_multithreads/io_cb.cpp:57-73 | from any state of the parser, a call is refused exactly when a header still to be read announces more than the limit |
| `FrameParser.RefusedSession` | dev_examples/libevent_multithreads/io_cb.cpp:65-74 | what a refused call leaves, read off the input alone: the bytes behind the first oversize header, and the size of the frame before it |
| `FrameParser.ChunkIndependence` | dev_examples/libevent_multithreads/io_cb.cpp:57-112 | reading A and then B leaves the same state, buffer and bodies as reading A+B at once, if and only if no header still to be read once A has arrived is oversize, or what lies behind the first such header is, with B, empty or still short of the stale size |
| `FrameParser.OversizeHeaderDependsOnChunks` | dev_examples/libevent_multithreads/io_cb.cpp:65-74 | a concrete input whose bodies depend on the chunks: an oversize header leaves the stale size behind |
| `FrameParser.RefusedLeavesBodyPhase` | dev_examples/libevent_multithreads/io_cb.cpp:65-73 | the early return leaves the parser expecting a body |
| `FrameParser.RunKeepsBytes` | dev_examples/libevent_multithreads/io_cb.cpp:57-112 | re-encoding the decoded bodies and the header in progress, and adding the unread bytes, gives back exactly the bytes taken in |
| `FrameParser.RunOneFrame` | dev_examples/libevent_multithreads/io_cb.cpp:57-112 | from a header to its body: the frame is taken as a whole, a header that ends the input is held back even if it announces no bytes |
| `FrameParser.RefusesOversize` | dev_examples/libevent_multithreads/io_cb.cpp:68-73 | the loop refuses a stream exactly when one of its headers announces more than the limit |
| `FrameParser.DecodesWholeFrames` | dev_examples/libevent_multithreads/io_cb.cpp:57-112 | of any other stream it delivers every whole frame in order, where frames are read off without parser state, holding back only a zero-length frame that ends the stream |
| `FrameParser.WholeFramesOfFrames` | dev_examples/libevent_multithreads/thread_worker.cpp:20-24 | framing is injective: decoding the concatenated frames of any bodies gives those bodies |
| `FrameParser.FrameLayout` | dev_examples/libevent_multithreads/thread_worker.cpp:20-25 | a frame is four bytes that are the length of the body to the base 256, most significant first, and then the body |
| `FrameParser.FirstWholeFrame` | dev_examples/libevent_multithreads/io_cb.cpp:57-98 | a stream begins with a whole frame if and only if all the bytes are there that its first four, read to the base 256, announce; that frame's body is exactly those bytes |
| `FrameParser.SameRun` | dev_examples/perf_libevent/server.cpp:41-94 | while no header is refused, the smaller limit and a stale size seen in the header phase make no difference to state or bodies |
| `EchoCallbacks.SessionInfo.constructor` | dev_examples/libevent_multithreads/session_info.hpp:16-19 | a new session is a parser in its initial state with empty buffers |
| `EchoCallbacks.TakeHeader` | dev_examples/libevent_multithreads/io_cb.cpp:59-83 | the header branch is one step of the parser; a larger header ends the callback with the body size unchanged |
| `EchoCallbacks.TakeBody` | dev_examples/libevent_multithreads/io_cb.cpp:84-111 | the body branch is one step of the parser and puts the body, tagged with the descriptor, on the queue |
| `EchoCallbacks.ReadLoop` | dev_examples/libevent_multithreads/io_cb.cpp:54-112 | the imperative loop of the read callback ends, leaves exactly the parser state of one run, and puts exactly that run's bodies, tagged with the descriptor, on the queue |
| `EchoCallbacks.Context.constructor` | dev_examples/libevent_multithreads/server.cpp:55-80 | one different queue and pipe per worker, one shared output queue, no sessions: the initial state of the transition system |
| `EchoCallbacks.Context.ReadCallback` | dev_examples/libevent_multithreads/io_cb.cpp:42-113 | the bodies go in order to queue `fd % threads`; no other queue and no other session changes |
| `EchoCallbacks.Context.ReadEvent` | dev_examples/libevent_multithreads/io_cb.cpp:42-113 | a read event on the shared objects is a run of the transition system: the receipt of exactly its chunk, then one Put for each body |
| `EchoCallbacks.Context.Drain` | dev_examples/libevent_multithreads/io_cb.cpp:17-39 | the loop ends with an empty output queue; each live connection's output has grown by exactly its own frames in order |
| `EchoCallbacks.Context.NotifyCallback` | dev_examples/libevent_multithreads/io_cb.cpp:6-40 | at most 4096 notification bytes are removed, yet the whole output queue is drained to the right connections and frames of closed ones are dropped |
| `EchoCallbacks.Context.NotifyEvent` | dev_examples/libevent_multithreads/io_cb.cpp:6-40 | a notify event on the shared objects is a run of the transition system: the wake-up, then TryGets until one fails |
| `EchoCallbacks.Context.AcceptCallback` | dev_examples/libevent_multithreads/io_cb.cpp:140-174 | is the Accept step for a descriptor up to FD_SETSIZE and nothing for a failed accept or a larger one; every other session is the same object as before, and a new one has new buffers |
| `EchoCallbacks.Context.ErrorCallback` | dev_examples/libevent_multithreads/io_cb.cpp:121-138 | erases this session and no other: the Close step |
| `EchoCallbacks.Context.Handle` | dev_examples/libevent_multithreads/io_cb.cpp:6-174 | an event that can happen takes exactly its own steps: receipt and Puts, wake-up and TryGets, Close, Accept exactly for a descriptor from 0 to 1024, or Get, Publish and Notify |
| `EchoCallbacks.Context.Serve` | dev_examples/libevent_multithreads/server.cpp:103 | for any sequence of accepts, reads, errors, notifications and worker rounds on the shared objects: the run of the transition system is the steps of all events one after the other, an event being left out if and only if it cannot happen in the state it meets, which is said of that state alone; the objects end in the state that the run ends in |
| `EchoCallbacks.EchoesOneFrame` | dev_examples/libevent_multithreads/server.cpp:55-103 | with any number of workers, on new shared objects: after an accept, a read of one frame of 1 to 1024000 bytes, a round of its worker and the notice of that, the connection's output buffer is that frame |
| `EchoCallbacks.AfterReadable` | dev_examples/libevent_multithreads/io_cb.cpp:42-113 | what a read event comes to, whatever its steps are called: the parser is where the loop stops, the bodies are in the queue of the shard, and nothing else has changed |
| `EchoCallbacks.Reframe` | dev_examples/libevent_multithreads/thread_worker.cpp:16-33 | takes the oldest element, appends it re-framed under the same descriptor to the output queue and one byte to the pipe; the buffer filled in place is the frame |
| `EchoCallbacks.Context.WorkerRound` | dev_examples/libevent_multithreads/thread_worker.cpp:14-34 | one round of a worker on the shared objects is the run Get, Publish, Notify of the transition system |
| `EchoCallbacks.SharedMaps.TakeHeader` | dev_examples/perf_libevent/server.cpp:43-68 | the header branch on the shared maps is one step of the parser, or the end of the process for a header above 1000; other descriptors' entries stay |
| `EchoCallbacks.SharedMaps.TakeBody` | dev_examples/perf_libevent/server.cpp:69-93 | the body branch is one step of the parser and appends the body's frame to the output; other descriptors' entries stay |
| `EchoCallbacks.SharedMaps.ReadLoop` | dev_examples/perf_libevent/server.cpp:40-94 | the reference loop ends, and is one run of the parser whose bodies are echoed as frames in order |
| `EchoCallbacks.SharedMaps.ReadCallback` | dev_examples/perf_libevent/server.cpp:29-95 | one run on this descriptor's entries, answered at once; the process has ended exactly if a header was refused; other descriptors' entries stay |
| `EchoCallbacks.SharedMaps.ReadEvent` | dev_examples/perf_libevent/server.cpp:29-95 | the object's maps, the buffers and the exit follow the model of the reference server through a read event, on every descriptor |
| `EchoCallbacks.SharedMaps.AcceptCallback` | dev_examples/perf_libevent/server.cpp:136-169 | they follow it through an accept, which sets the one map's entry for a descriptor from 0 to 1024 and changes nothing else; a failed accept and a larger descriptor change nothing |
| `EchoCallbacks.SharedMaps.ErrorCallback` | dev_examples/perf_libevent/server.cpp:103-134 | they follow it through a close: both entries of the descriptor are erased if the end-of-file flag is clear, the error flag set and the error a reset by the peer, and nothing changes otherwise |
| `EchoProtocol.KeepsRouted` | dev_examples/libevent_multithreads/io_cb.cpp:98 | every element lies in the queue or hand of its own shard, and every element of the output queue is the frame of a body, through every step |
| `EchoProtocol.KeepsWillDrain` | dev_examples/libevent_multithreads/thread_worker.cpp:31-33 | output in the queue implies a worker between Put and write, an unread pipe byte or a running drain, through every step |
| `EchoProtocol.KeepsConserved` | dev_examples/libevent_multithreads/io_cb.cpp:93-98 | per connection: bodies delivered, then those in the output queue, in its worker's hand, in its input queue and in the running read callback concatenate to exactly the bodies its parser emitted, and the bytes sent are the frames of those delivered, through every step |
| `EchoProtocol.PublishConserves` | dev_examples/libevent_multithreads/thread_worker.cpp:20-31 | taking an element from the hand and putting its frame on the shared queue neither loses, repeats nor reorders anything of any connection |
| `EchoProtocol.TryGetConserves` | dev_examples/libevent_multithreads/io_cb.cpp:21-31 | handing out one frame keeps conservation for its connection and all others |
| `EchoProtocol.KeepsInStep` | dev_examples/libevent_multithreads/io_cb.cpp:42-113 | through any number of read events the parser is where one run over all bytes received would be |
| `EchoProtocol.FirstHeader` | dev_examples/libevent_multithreads/io_cb.cpp:59-78 | a new connection that receives four bytes expects a body of the length they are to the base 256, unless that is above 1024000 |
| `EchoProtocol.KeepsInv` | dev_examples/libevent_multithreads/io_cb.cpp:6-174 | the whole invariant is inductive over the nine kinds of steps of I/O thread, workers and clients |
| `EchoProtocol.EchoIsPrefix` | dev_examples/libevent_multithreads/io_cb.cpp:6-113 | for any number of workers and connections, every interleaving and every splitting of the input: the bytes sent on a live connection are a prefix of the bytes received on it, provided none of its own headers is oversize |
| `EchoProtocol.SentIsPrefix` | dev_examples/libevent_multithreads/io_cb.cpp:19-36 | what was sent is a prefix of the frames of the emitted bodies, which are a prefix of what was received |
| `EchoProtocol.NoLostWakeUp` | dev_examples/libevent_multithreads/thread_worker.cpp:31-33 | in every reachable state a non-empty output queue will still be noticed |
| `EchoProtocol.AcceptNeedsClean` | dev_examples/libevent_multithreads/queue_element.hpp:8-12 | accepting a descriptor keeps the invariant if and only if nothing is under way for it in the queues or its worker's hand |
| `EchoCompletion.InternalStepsDescend` | dev_examples/libevent_multithreads/thread_worker.cpp:14-34 | every step the server takes by itself lowers a measure over queue lengths, worker phases, pipe bytes and callback progress |
| `EchoCompletion.RunsAreFinite` | dev_examples/libevent_multithreads/io_cb.cpp:6-113 | without new input no run is longer than the measure of its first state |
| `EchoCompletion.HeldUpOnlyBy` | dev_examples/libevent_multithreads/thread_worker.cpp:14-34 | a worker is held up by nothing but an empty queue of its own or a full pipe of 65536 bytes, whatever the other threads do, and the I/O thread by nothing inside a callback |
| `EchoCompletion.QuiescentIsEmpty` | dev_examples/libevent_multithreads/thread_worker.cpp:14-34 | where no such step is enabled all queues and pipes are empty, all workers wait and the I/O thread is between callbacks |
| `EchoCompletion.CompleteAtRest` | dev_examples/libevent_multithreads/io_cb.cpp:57-112 | at rest each live connection has been sent every whole frame it received, except at most one trailing zero-length frame still waiting for its next byte; what was not sent is that header or an incomplete frame |
| `EchoCompletion.PutsOfOneCallback` | dev_examples/libevent_multithreads/io_cb.cpp:93-98 | the separate Put steps of one read callback, uninterrupted, have the effect proved of the imperative callback |
| `EchoCompletion.TryGetsOfOneCallback` | dev_examples/libevent_multithreads/io_cb.cpp:17-39 | the separate TryGet steps of one notify callback, uninterrupted, have the effect proved of the imperative callback |
| `EchoCompletion.RunToRest` | dev_examples/libevent_multithreads/io_cb.cpp:6-113 | from every state the server can come to rest by its own steps |
| `EchoCompletion.InternalKeepsDue` | dev_examples/libevent_multithreads/io_cb.cpp:19-36 | whatever is under way for a descriptor when it is accepted, the server's own steps only move it towards the new connection |
| `EchoCompletion.ForeignFramesExactlyIfUnclean` | dev_examples/libevent_multithreads/queue_element.hpp:8-12 | from every state that satisfies the invariant: a connection just accepted can be sent something although it has received nothing, if and only if elements for its descriptor were still under way |
| `EchoCompletion.ReusedDescriptorGetsForeignFrame` | dev_examples/libevent_multithreads/queue_element.hpp:8-12 | a possible run from the initial state in which that happens |
| `ReferenceServer.ReceivePrivate` | dev_examples/perf_libevent/server.cpp:29-95 | one read event keeps a connection's map entries equivalent to private parser state, and ends the process exactly if one of its headers exceeds 1000 |
| `ReferenceServer.AcceptIsFresh` | dev_examples/perf_libevent/server.cpp:155 | after an accept the maps act as fresh state, although only one of them was reset |
| `ReferenceServer.FirstHeaderEnds` | dev_examples/perf_libevent/server.cpp:43-60 | whatever the maps hold, the first four bytes of a new connection end the process if and only if they announce more than 1000 bytes |
| `ReferenceServer.ReactKeepsPrivate` | dev_examples/perf_libevent/server.cpp:26-169 | accepts, reads, closes and resets keep every live connection's state private |
| `ReferenceServer.ThreadedRefinesReference` | dev_examples/perf_libevent/server.cpp:29-169 | for the same accepts, reads and closes the threaded server's output on each live connection is a prefix of the reference server's and equal to it at rest, as long as the reference server is alive; it has ended exactly if some header was above 1000 |
| `Wire.VarintFormat` | lite_test/protobuf_debugstring_test/src/message.pb.cc:253-257 | a number is written as bytes of which exactly the last has its upper bit clear, whose lower seven bits are the digits of the number to the base 128, least significant first, without leading zeros |
| `Wire.VarintDigits` | lite_test/protobuf_debugstring_test/src/message.pb.cc:253-257 | the lower seven bits of byte number i are the number divided by 128^i, modulo 128 |
| `Wire.ReadVarintFormat` | lite_test/protobuf_debugstring_test/src/message.pb.cc:204-212 | reading takes the bytes up to the first with its upper bit clear, if there is one in the room given, and yields the sum of their lower seven bits times 128^i; it fails exactly if there is none |
| `Wire.RecordFormat` | lite_test/protobuf_debugstring_test/src/message.pb.cc:253-272 | a record is the varint of eight times its number plus wire type 0, 1, 2 or 5, then a varint, eight bytes, a varint of the length and that many bytes, or four bytes |
| `Wire.ReadRecordFormat` | lite_test/protobuf_debugstring_test/src/message.pb.cc:203-248 | whatever is read as a record has that format; when the end, a zero or unreadable tag, or a group end is met instead, read off the bytes without the reader |
| `Wire.ReadPayloadFormat` | lite_test/protobuf_debugstring_test/src/message.pb.cc:204-248 | what follows a tag is read by its wire type, and fails exactly if it is not all there: of a value 64 bits count, of a length 32 |
| `Wire.ReadWrittenRecord` | lite_test/protobuf_debugstring_test/src/message.pb.cc:243-244 | any record that fits the format is read back as written, whatever follows |
| `Wire.ReadRecordMore` | lite_test/protobuf_debugstring_test/src/message.pb.cc:203-248 | bytes behind a record do not change how it is read |
| `Wire.ReadRecordValid` | lite_test/protobuf_debugstring_test/src/message.pb.cc:243-244 | a record that was read, in any encoding, can be written and takes no more room than it was read from |
| `Wire.UnknownSizeExact` | lite_test/protobuf_debugstring_test/src/message.pb.cc:318-322 | the computed size of unknown fields is the number of bytes they serialize to |
| `CodedStreams.CodedInput.NextTag` | lite_test/protobuf_debugstring_test/src/message.pb.cc:203 | zero for the end of the message, a zero tag and a malformed tag; only the first is a legitimate end |
| `CodedStreams.CodedInput.ExpectTag` | lite_test/protobuf_debugstring_test/src/message.pb.cc:216 | takes the next byte only if it is the one-byte form of the tag, and may miss it when it is not buffered |
| `CodedStreams.CodedInput.ExpectAtEnd` | lite_test/protobuf_debugstring_test/src/message.pb.cc:233 | tells the end without consuming anything; true only at the end, and may be false there |
| `Messages.ParseConcat` | lite_test/protobuf_debugstring_test/src/message.pb.cc:463-514 | parsing a+b is parsing b into the result of parsing a, whenever a is consumed to its end; for both message types |
| `Messages.ParseEncodedUser` | lite_test/protobuf_debugstring_test/src/message.pb.cc:199-273 | parsing a serialized `userinfo` into any message is merging it |
| `Messages.ParseEncodedFocus` | lite_test/protobuf_debugstring_test/src/message.pb.cc:463-537 | parsing a serialized `focustm` into any message is merging it |
| `Messages.RoundTrip` | lite_test/protobuf_debugstring_test/src/message.pb.cc:463-537 | parsing the serialization of any `focustm` gives the same values, presence and unknown fields in order, for any number of nested messages and unrecognised group-free records |
| `Messages.ConcatIsMerge` | lite_test/protobuf_debugstring_test/src/message.pb.cc:516-537 | parsing two concatenated serializations gives the second merged into the first: last scalar wins, nested messages and unknown fields append |
| `Messages.ParseFocusValid` | lite_test/protobuf_debugstring_test/src/message.pb.cc:463-514 | any accepted input stands for a message that can be serialized |
| `Messages.AcceptedInputIsStable` | lite_test/protobuf_debugstring_test/src/message.pb.cc:463-537 | any accepted input, however encoded, is parsed into a message that serializes and parses back to itself |
| `Messages.UserSize` | lite_test/protobuf_debugstring_test/src/message.pb.cc:299-327 | the sum that `ByteSize` computes is the length of the encoding |
| `Messages.UserFields` | lite_test/protobuf_debugstring_test/src/message.pb.cc:253-272 | read by a reader that knows no message, a serialized `userinfo` is the userid as a varint under number 1, the username as bytes under number 2, each exactly if it is set, and then the unknown records |
| `Messages.FocusFields` | lite_test/protobuf_debugstring_test/src/message.pb.cc:516-537 | a serialized `focustm` is, for such a reader, the type as bytes under number 1 if it is set, each nested message's own serialization under number 2 in order, and then the unknown records |
| `Messages.ParseReadsRecords` | lite_test/protobuf_debugstring_test/src/message.pb.cc:463-514 | parsing any input is applying, in order, the records that such a reader finds; it consumed the whole message if and only if nothing is left, and fails if a record is refused or what is left is malformed |
| `Messages.ValidExactlyIfParsed` | lite_test/protobuf_debugstring_test/src/message.pb.cc:463-514 | the messages that these laws are about are exactly those that some input is parsed into |
| `MessageObjects.Userinfo.constructor` | lite_test/protobuf_debugstring_test/src/message.pb.cc:146-151 | a new message is valid, has no field set and points to the shared empty string |
| `MessageObjects.Userinfo.Destroy` | lite_test/protobuf_debugstring_test/src/message.pb.cc:157-163 | the owned string is freed, the shared empty one never |
| `MessageObjects.Userinfo.SetUserid` | lite_test/protobuf_debugstring_test/src/message.pb.h:260-263 | sets exactly this field |
| `MessageObjects.Userinfo.ClearUserid` | lite_test/protobuf_debugstring_test/src/message.pb.h:253-256 | the field is unset and back at its default |
| `MessageObjects.Userinfo.MutableUsername` | lite_test/protobuf_debugstring_test/src/message.pb.h:305-311 | the field becomes present with its former contents in a string of its own, never the shared one |
| `MessageObjects.Userinfo.SetUsername` | lite_test/protobuf_debugstring_test/src/message.pb.h:284-290 | sets exactly this field; allocates only if the string was the shared one |
| `MessageObjects.Userinfo.ClearUsername` | lite_test/protobuf_debugstring_test/src/message.pb.h:275-280 | the field is unset; its string is kept, empty |
| `MessageObjects.Userinfo.ReleaseUsername` | lite_test/protobuf_debugstring_test/src/message.pb.h:312-321 | the string goes to the caller, null if there was none, and the field is unset |
| `MessageObjects.Userinfo.SetAllocatedUsername` | lite_test/protobuf_debugstring_test/src/message.pb.h:322-333 | takes the caller's string over, frees the former one, and null unsets the field |
| `MessageObjects.Userinfo.Clear` | lite_test/protobuf_debugstring_test/src/message.pb.cc:186-197 | the message stands for the same value as a new one |
| `MessageObjects.Userinfo.MergeFrom` | lite_test/protobuf_debugstring_test/src/message.pb.cc:341-352 | merges the other value in and leaves the other message as it was |
| `MessageObjects.Userinfo.CopyFrom` | lite_test/protobuf_debugstring_test/src/message.pb.cc:360-364 | the message equals its source, also when it is the source |
| `MessageObjects.Userinfo.Swap` | lite_test/protobuf_debugstring_test/src/message.pb.cc:371-379 | values, strings and cached sizes change places, also with itself |
| `MessageObjects.Userinfo.MergePartialFromCodedStream` | lite_test/protobuf_debugstring_test/src/message.pb.cc:199-251 | the `ExpectTag`, `goto` and `ExpectAtEnd` paths accept the same bytes and build the same message as the plain read-tag-and-dispatch loop, for every input and every division of it into buffers |
| `MessageObjects.Userinfo.Dispatch` | lite_test/protobuf_debugstring_test/src/message.pb.cc:204-247 | one round with its fast paths, which count a taken tag as unread, keeps the result of the plain loop and makes progress |
| `MessageObjects.Userinfo.ByteSize` | lite_test/protobuf_debugstring_test/src/message.pb.cc:299-327 | returns and caches the number of bytes the message serializes to |
| `MessageObjects.Userinfo.SerializeWithCachedSizes` | lite_test/protobuf_debugstring_test/src/message.pb.cc:253-273 | appends exactly the encoding |
| `MessageObjects.Userinfo.SerializeWithCachedSizesToArray` | lite_test/protobuf_debugstring_test/src/message.pb.cc:275-297 | writes exactly the encoding at the target and nothing elsewhere, so both serializers produce the same bytes |
| `FocusObjects.Focustm.constructor` | lite_test/protobuf_debugstring_test/src/message.pb.cc:411-415 | a new message is valid with no field set |
| `FocusObjects.Focustm.SetMsgtype` | lite_test/protobuf_debugstring_test/src/message.pb.h:358-364 | sets exactly this field; allocates only if the string was the shared one |
| `FocusObjects.Focustm.ClearMsgtype` | lite_test/protobuf_debugstring_test/src/message.pb.h:349-354 | the field is unset; its string is kept, empty |
| `FocusObjects.Focustm.MutableMsgtype` | lite_test/protobuf_debugstring_test/src/message.pb.h:379-385 | the field becomes present with its former contents in a string of its own, never the shared one |
| `FocusObjects.Focustm.ReleaseMsgtype` | lite_test/protobuf_debugstring_test/src/message.pb.h:386-395 | the string goes to the caller, null if there was none, and the field is unset |
| `FocusObjects.Focustm.SetAllocatedMsgtype` | lite_test/protobuf_debugstring_test/src/message.pb.h:396-407 | takes the caller's string over, frees the former one, and null unsets the field |
| `FocusObjects.Focustm.AddUi` | lite_test/protobuf_debugstring_test/src/message.pb.h:422-424 | appends an empty nested message and gives it to the caller to fill: the first one kept for reuse, with the string it still owns, or a new one that owns none |
| `FocusObjects.Focustm.ClearUi` | lite_test/protobuf_debugstring_test/src/message.pb.h:413-415 | empties the nested messages and keeps all of them, in order and with their strings, for reuse; changes nothing else |
| `FocusObjects.Focustm.Destroy` | lite_test/protobuf_debugstring_test/src/message.pb.cc:421-427 | the message's string and those of all nested messages, also of those kept for reuse, are freed, each once, the shared one never |
| `FocusObjects.Focustm.Clear` | lite_test/protobuf_debugstring_test/src/message.pb.cc:450-461 | the message stands for the same value as a new one |
| `FocusObjects.Focustm.MergeFrom` | lite_test/protobuf_debugstring_test/src/message.pb.cc:608-617 | merges the other value in, copying its nested messages into those kept for reuse and new ones, each with a string of its own, and leaves the other message as it was |
| `FocusObjects.Focustm.CopyFrom` | lite_test/protobuf_debugstring_test/src/message.pb.cc:625-629 | the message equals its source, also when it is the source |
| `FocusObjects.Focustm.Swap` | lite_test/protobuf_debugstring_test/src/message.pb.cc:636-644 | values, strings, nested messages and cached sizes change places, also with itself |
| `FocusObjects.Focustm.MergePartialFromCodedStream` | lite_test/protobuf_debugstring_test/src/message.pb.cc:463-514 | the fast paths accept the same bytes and build the same message as the plain loop, for every input, non-minimal tags included, and every division into buffers; it takes nested messages that were kept for reuse before it adds new ones |
| `FocusObjects.Focustm.Dispatch` | lite_test/protobuf_debugstring_test/src/message.pb.cc:468-510 | one round with its fast paths keeps the result of the plain loop and makes progress |
| `FocusObjects.ReadMessage` | lite_test/protobuf_debugstring_test/src/message.pb.cc:490-491 | a nested message is read under its own limit and must end exactly there |
| `FocusObjects.Focustm.ByteSize` | lite_test/protobuf_debugstring_test/src/message.pb.cc:565-594 | returns the number of bytes the message serializes to and leaves the right cached size in every nested message, changing no value |
| `FocusObjects.Focustm.SerializeWithCachedSizes` | lite_test/protobuf_debugstring_test/src/message.pb.cc:516-537 | with sizes cached, appends exactly the encoding: every nested length prefix matches its contents |
| `FocusObjects.Focustm.SerializeWithCachedSizesToArray` | lite_test/protobuf_debugstring_test/src/message.pb.cc:539-563 | writes exactly the same bytes at the target and nothing elsewhere |
| `MessageArena.Arena.constructor` | lite_test/protobuf_debugstring_test/src/message.pb.h:275-333 | an arena of no messages around one empty string satisfies the heap invariant |
| `MessageArena.Arena.Separate` | lite_test/protobuf_debugstring_test/src/message.pb.h:322-333 | no two nested-type messages own the same string |
| `MessageArena.Arena.OuterOwnerOf` | lite_test/protobuf_debugstring_test/src/message.pb.h:396-407 | the heap invariant gives an outer message all that its methods require; its strings and nested messages are its own |
| `MessageArena.Arena.OutersApart` | lite_test/protobuf_debugstring_test/src/message.pb.cc:608-617 | no two outer messages, nor the nested ones inside them, own the same string, so one can be merged into or copied to the other |
| `MessageArena.Arena.KeepsValid` | lite_test/protobuf_debugstring_test/src/message.pb.h:275-407 | an operation on some messages that does right by them keeps the heap invariant of all: every string in use is live, has one owner and is not the shared one; an unset presence bit implies the default; every nested message lies in one outer message, in use or empty and kept for reuse |
| `MessageArena.Arena.NewInfo` | lite_test/protobuf_debugstring_test/src/message.pb.cc:182-184 | keeps the heap invariant over all messages of both types and the callers' strings; every other message stays in the arena, in its place, untouched; no string is lost, and what is new was not allocated before; the message is empty |
| `MessageArena.Arena.SetUserid` | lite_test/protobuf_debugstring_test/src/message.pb.h:260-263 | keeps the heap invariant over all messages of both types and the callers' strings; every other message stays in the arena, in its place, untouched; no string is lost, and what is new was not allocated before; sets this field |
| `MessageArena.Arena.ClearUserid` | lite_test/protobuf_debugstring_test/src/message.pb.h:253-256 | keeps the heap invariant over all messages of both types and the callers' strings; every other message stays in the arena, in its place, untouched; no string is lost, and what is new was not allocated before; unsets this field |
| `MessageArena.Arena.SetUsername` | lite_test/protobuf_debugstring_test/src/message.pb.h:284-290 | keeps the heap invariant over all messages of both types and the callers' strings; every other message stays in the arena, in its place, untouched; no string is lost, and what is new was not allocated before; sets this field, also of a nested message inside an outer one, in the string it had or, over the shared one, a new one |
| `MessageArena.Arena.ClearUsername` | lite_test/protobuf_debugstring_test/src/message.pb.h:275-280 | keeps the heap invariant over all messages of both types and the callers' strings; every other message stays in the arena, in its place, untouched; no string is lost, and what is new was not allocated before; unsets this field |
| `MessageArena.Arena.WriteMutableUsername` | lite_test/protobuf_debugstring_test/src/message.pb.h:305-311 | a write through the pointer just given by `mutable_username` keeps the heap invariant over all messages of both types and the callers' strings; every other message stays in the arena, in its place, untouched; no string is lost, and what is new was not allocated before |
| `MessageArena.Arena.ReleaseUsername` | lite_test/protobuf_debugstring_test/src/message.pb.h:312-321 | keeps the heap invariant over all messages of both types and the callers' strings; every other message stays in the arena, in its place, untouched; no string is lost, and what is new was not allocated before; the string moves from the message to the caller and is owned by no one else |
| `MessageArena.Arena.SetAllocatedUsername` | lite_test/protobuf_debugstring_test/src/message.pb.h:322-333 | keeps the heap invariant over all messages of both types and the callers' strings; every other message stays in the arena, in its place, untouched; no string is lost, and what is new was not allocated before; the former string is freed, and the caller's, released or made by the caller, is the one that the message then points to |
| `MessageArena.Arena.MergeInfo` | lite_test/protobuf_debugstring_test/src/message.pb.cc:341-352 | keeps the heap invariant over all messages of both types and the callers' strings; every other message stays in the arena, in its place, untouched; no string is lost, and what is new was not allocated before; merges the value of any other message |
| `MessageArena.Arena.CopyInfo` | lite_test/protobuf_debugstring_test/src/message.pb.cc:360-364 | keeps the heap invariant over all messages of both types and the callers' strings; every other message stays in the arena, in its place, untouched; no string is lost, and what is new was not allocated before; the copy equals its source, also if it is the source |
| `MessageArena.Arena.SwapInfo` | lite_test/protobuf_debugstring_test/src/message.pb.cc:371-379 | keeps the heap invariant over all messages of both types and the callers' strings; every other message stays in the arena, in its place, untouched; no string is lost, and what is new was not allocated before; values and strings change places |
| `MessageArena.Arena.ClearInfo` | lite_test/protobuf_debugstring_test/src/message.pb.cc:186-197 | keeps the heap invariant over all messages of both types and the callers' strings; every other message stays in the arena, in its place, untouched; no string is lost, and what is new was not allocated before; the value is that of a new message |
| `MessageArena.Arena.ParseInfo` | lite_test/protobuf_debugstring_test/src/message.pb.cc:199-251 | keeps the heap invariant over all messages of both types and the callers' strings; every other message stays in the arena, in its place, untouched; no string is lost, and what is new was not allocated before; the value is that of the plain loop, also after failure nothing is shared |
| `MessageArena.Arena.DestroyInfo` | lite_test/protobuf_debugstring_test/src/message.pb.cc:157-163 | keeps the heap invariant over all messages of both types and the callers' strings; every other message stays in the arena, in its place, untouched; no string is lost, and what is new was not allocated before; every string the message owned is freed, once |
| `MessageArena.Arena.NewOuter` | lite_test/protobuf_debugstring_test/src/message.pb.cc:446-448 | keeps the heap invariant over all messages of both types and the callers' strings; every other message stays in the arena, in its place, untouched; no string is lost, and what is new was not allocated before; the message is empty |
| `MessageArena.Arena.SetMsgtype` | lite_test/protobuf_debugstring_test/src/message.pb.h:358-364 | keeps the heap invariant over all messages of both types and the callers' strings; every other message stays in the arena, in its place, untouched; no string is lost, and what is new was not allocated before; sets this field |
| `MessageArena.Arena.ClearMsgtype` | lite_test/protobuf_debugstring_test/src/message.pb.h:349-354 | keeps the heap invariant over all messages of both types and the callers' strings; every other message stays in the arena, in its place, untouched; no string is lost, and what is new was not allocated before; unsets this field |
| `MessageArena.Arena.WriteMutableMsgtype` | lite_test/protobuf_debugstring_test/src/message.pb.h:379-385 | a write through the pointer just given by `mutable_msgtype` keeps the heap invariant over all messages of both types and the callers' strings; every other message stays in the arena, in its place, untouched; no string is lost, and what is new was not allocated before |
| `MessageArena.Arena.ReleaseMsgtype` | lite_test/protobuf_debugstring_test/src/message.pb.h:386-395 | keeps the heap invariant over all messages of both types and the callers' strings; every other message stays in the arena, in its place, untouched; no string is lost, and what is new was not allocated before; the string moves from the message to the caller and is owned by no one else |
| `MessageArena.Arena.SetAllocatedMsgtype` | lite_test/protobuf_debugstring_test/src/message.pb.h:396-407 | keeps the heap invariant over all messages of both types and the callers' strings; every other message stays in the arena, in its place, untouched; no string is lost, and what is new was not allocated before; the former string is freed, and the caller's is the one that the message then points to |
| `MessageArena.Arena.AddUi` | lite_test/protobuf_debugstring_test/src/message.pb.h:422-424 | keeps the heap invariant over all messages of both types and the callers' strings; every other message stays in the arena, in its place, untouched; no string is lost, and what is new was not allocated before; the nested message added, one kept for reuse or a new one, can be operated on like any other |
| `MessageArena.Arena.ClearUi` | lite_test/protobuf_debugstring_test/src/message.pb.h:413-415 | keeps the heap invariant over all messages of both types and the callers' strings; every other message stays in the arena, in its place, untouched; no string is lost, and what is new was not allocated before; the nested messages are kept for reuse, and no caller may use them until they are handed out again |
| `MessageArena.Arena.ClearOuter` | lite_test/protobuf_debugstring_test/src/message.pb.cc:450-461 | keeps the heap invariant over all messages of both types and the callers' strings; every other message stays in the arena, in its place, untouched; no string is lost, and what is new was not allocated before; the value is that of a new message, and the nested messages are kept for reuse |
| `MessageArena.Arena.MergeOuter` | lite_test/protobuf_debugstring_test/src/message.pb.cc:608-617 | keeps the heap invariant over all messages of both types and the callers' strings; every other message stays in the arena, in its place, untouched; no string is lost, and what is new was not allocated before; merges the value of any other outer message; its nested messages in use are untouched, those added come from the ones kept for reuse |
| `MessageArena.Arena.CopyOuter` | lite_test/protobuf_debugstring_test/src/message.pb.cc:625-629 | keeps the heap invariant over all messages of both types and the callers' strings; every other message stays in the arena, in its place, untouched; no string is lost, and what is new was not allocated before; the copy equals its source, also if it is the source |
| `MessageArena.Arena.SwapOuter` | lite_test/protobuf_debugstring_test/src/message.pb.cc:636-644 | keeps the heap invariant over all messages of both types and the callers' strings; every other message stays in the arena, in its place, untouched; no string is lost, and what is new was not allocated before; values, strings and nested messages change places |
| `MessageArena.Arena.ParseOuter` | lite_test/protobuf_debugstring_test/src/message.pb.cc:463-514 | keeps the heap invariant over all messages of both types and the callers' strings; every other message stays in the arena, in its place, untouched; no string is lost, and what is new was not allocated before; the value is that of the plain loop, also after failure nothing is shared |
| `MessageArena.Arena.DestroyOuter` | lite_test/protobuf_debugstring_test/src/message.pb.cc:421-427 | keeps the heap invariant over all messages of both types and the callers' strings; every other message stays in the arena, in its place, untouched; no string is lost, and what is new was not allocated before; its string and those of its nested messages, in use or not, are freed, each once |
| `MessageArena.SameValueSameAccessors` | lite_test/protobuf_debugstring_test/src/message.pb.h:244-283 | valid messages that stand for the same value agree in every accessor, so a cleared message cannot be told from a new one nor a copy from its source |
| `MessageArena.SameOuterSameAccessors` | lite_test/protobuf_debugstring_test/src/message.pb.h:340-421 | the same of outer messages, down to every accessor of every nested one |
| `MessagePrograms.PutGet` | lite_test/protobuf_debugstring_test/src/message.pb.h:416-421 | in the store of values, changing the value at one place, alone or inside an outer message, changes the value at no other |
| `MessagePrograms.SamePlaces` | lite_test/protobuf_debugstring_test/src/message.pb.h:409-421 | two stores that differ at most in nested-type values are the same if they agree at every place |
| `MessagePrograms.Program.Locate` | lite_test/protobuf_debugstring_test/src/message.pb.h:416-421 | in a valid program a message is at one place only: two different indices, or an index and a nested one, never reach the same object |
| `MessagePrograms.Program.DoInfo` | lite_test/protobuf_debugstring_test/src/message.pb.h:253-290 | an accessor of one message, alone or got by `mutable_ui`, changes exactly the value at its place in the store of all values |
| `MessagePrograms.Program.DoSwapInfo` | lite_test/protobuf_debugstring_test/src/message.pb.cc:371-379 | swapping any two nested-type messages, wherever they are, exchanges exactly their two values |
| `MessagePrograms.Program.DoMergeOuter` | lite_test/protobuf_debugstring_test/src/message.pb.cc:608-617 | merging one outer message into another changes exactly its value, and no value of any message that shares the heap with it |
| `MessagePrograms.Program.DoReleaseUsername` | lite_test/protobuf_debugstring_test/src/message.pb.h:312-321 | the released string becomes the caller's with the field's contents, and the field is unset; nothing else changes |
| `MessagePrograms.Program.Do` | lite_test/protobuf_debugstring_test/src/message.pb.h:253-421 | each of the operations, on whichever messages, is the step that it is on values, and is skipped if it names something that is not there |
| `MessagePrograms.RefusedExactly` | lite_test/protobuf_debugstring_test/src/message.pb.h:253-333 | an operation is left out if and only if it names a message or string that is not there, sets a number that does not fit 32 bits, or merges a message into itself |
| `MessagePrograms.Program.Run` | lite_test/protobuf_debugstring_test/src/message.pb.cc:146-644 | any sequence of accessors, `release` and `set_allocated`, merges, copies, swaps, parses, clears and destructions, on any number of messages of both types and the callers' strings, changes at each step what it says and nothing else, as if messages were values; no string is lost on the way, and a program that destroys everything in the end has freed every string it ever had |
| `CoroutineServer.StepsOneHandler` | dev_examples/pyserver/src/service/pys_uplocation.py:14-41 | a step of a coroutine changes no other handler and not its uid |
| `PoolSafety.PoolsAreConserved` | dev_examples/pyserver/src/util/pys_simple_db_pool.py:32-56 | in every reachable state each pooled connection is free or held exactly as often as Init put it there, so no two handlers hold it; when no call is in progress all are free, whatever backend calls failed or raised |
| `PoolSafety.KeepsCopies` | dev_examples/pyserver/src/util/pys_simple_cache_pool.py:28-42 | every step moves connections between the free queue and the handlers without losing or duplicating one |
| `PoolSafety.NeedsAreOrdered` | dev_examples/pyserver/src/service/pys_uplocation.py:14-16 | no service takes a connection of a pool that comes before one it already holds, in the order db, cache0, cache1 |
| `PoolSafety.WorksWith` | dev_examples/pyserver/src/service/pys_uplocation.py:14-16 | in every reachable state a login that works holds one connection of the database and one of cache0, an upload of a location one of each of the three pools, a logout one of each cache, each in that order, and nothing else |
| `PoolSafety.EveryServiceRuns` | dev_examples/pyserver/src/pys_tcpserver.py:58-86 | from every reachable state, with no pool empty, a client without an open connection can connect and get any of the services to the start of its work, whatever was in progress or has failed |
| `PoolSafety.FindEnabled` | dev_examples/pyserver/src/service/pys_logout.py:13-14 | from any blocked handler the chain of holders ends in one that can step |
| `PoolSafety.NoDeadlock` | dev_examples/pyserver/src/service/pys_login.py:14-15 | with every pool of size at least one, every reachable state with an unfinished call has an enabled step, for any number of handlers and services |
| `PoolSafety.CallsFinish` | dev_examples/pyserver/src/service/pys_uplocation.py:17-41 | without new requests the number of steps is bounded, so every call returns what it took |
| `PoolSafety.RunToRest` | dev_examples/pyserver/src/service/pys_uplocation.py:14-41 | from every reachable state, with no pool empty, some run of steps alone ends with all calls returned and every pool holding exactly the connections Init put there |
| `SessionCaches.KeepsInv` | dev_examples/pyserver/src/service/pys_login.py:18-26 | agreement between each handler's progress and its uid's keys is inductive over all interleavings |
| `SessionCaches.CachesTellWhoIsConnected` | dev_examples/pyserver/src/pys_tcpserver.py:64-94 | whenever no service call is in progress an online uid belongs to a live connection that logged in and a located uid is online; a connection whose handler is done has no key in either cache. Claimed for every uid except 0 and those for which a raising call made client and caches disagree |
| `SessionCaches.TaintedExactly` | dev_examples/pyserver/src/service/pys_logout.py:16-22 | for every service, step and answer: client and caches are left in disagreement if and only if the call raises in one of four ways, read off the answer, the session and the keys before the call |
| `SessionCaches.OnlyZeroIsStranded` | dev_examples/pyserver/src/service/pys_logout.py:16-18 | for all pools that are not empty: uid 0 is the only one whose online key can outlive its connection although no raising call made client and caches disagree, because the service tests the uid for truth |
| `ServiceOutcomes.Interleaved` | dev_examples/pyserver/src/pys_tcpserver.py:58-94 | however other handlers interleave, a service does to its handler and its uid's keys what it would do alone with the same answers |
| `ServiceOutcomes.CoversAllWork` | dev_examples/pyserver/src/pys_tcpserver.py:58-94 | the tables below cover every run at each step of which the service is at work, whatever others do |
| `ServiceOutcomes.LoginCall` | dev_examples/pyserver/src/service/pys_login.py:16-31 | for every combination of answers and every interleaving: the session knows its uid exactly if query and cache write succeeded, the uid is online exactly if it was or the write took effect, and everything taken is about to be given back |
| `ServiceOutcomes.UplocationCall` | dev_examples/pyserver/src/service/pys_uplocation.py:17-40 | for every combination of answers and every interleaving: the uid is located exactly if it was, or it was online, look-up and update succeeded and the write took effect |
| `ServiceOutcomes.LogoutCall` | dev_examples/pyserver/src/service/pys_logout.py:15-22 | for every combination of answers and every interleaving: which of the two keys is left, and that a session without a uid other than 0 keeps both |
| `ConnectionPools.SimpleDBPool.Init` | dev_examples/pyserver/src/util/pys_simple_db_pool.py:24-34 | adds exactly the configured number of new connections, all different from each other and from those already there |
| `ConnectionPools.SimpleDBPool.Get` | dev_examples/pyserver/src/util/pys_simple_db_pool.py:40-47 | the connection that has been free longest, or None before Init |
| `ConnectionPools.SimpleDBPool.Release` | dev_examples/pyserver/src/util/pys_simple_db_pool.py:48-56 | commits or rolls back before the connection becomes free again at the end of the queue; nothing before Init |
| `ConnectionPools.SimpleCachePool.Init` | dev_examples/pyserver/src/util/pys_simple_cache_pool.py:17-26 | every configured cache gets a new queue of that many different connections, and no connection is in two queues |
| `ConnectionPools.SimpleCachePool.Get` | dev_examples/pyserver/src/util/pys_simple_cache_pool.py:33-37 | the connection of that cache that has been free longest, None before Init, a KeyError for a cache that was not configured; no other queue changes |
| `ConnectionPools.SimpleCachePool.Release` | dev_examples/pyserver/src/util/pys_simple_cache_pool.py:38-42 | the connection goes to the end of the queue of that cache; nothing before Init, a KeyError for a cache that was not configured |
| `ConnectionPools.GetNext` | dev_examples/pyserver/src/service/pys_uplocation.py:14-16 | the next Get of a service on the pool objects is exactly the Acquire step: the first of a logout takes the oldest free connection of `pyscache0`, its second of `pyscache1`; any other service takes from the database, then `pyscache0`, and the upload of a location then `pyscache1` |
| `ConnectionPools.ReleaseLast` | dev_examples/pyserver/src/service/pys_uplocation.py:37-40 | the next Release of the finally block is exactly the Release step, and commits exactly when login or upload gives its last connection back |
| `PackageFraming.UnpackPacked` | dev_examples/pyserver/src/util/pys_package.py:37-41 | a signed 32-bit integer is unpacked as it was packed |
| `PackageFraming.PackIntFormat` | dev_examples/pyserver/src/util/pys_package.py:37-38 | the four bytes of `!i` are the number in two's complement, the most significant first, and it raises exactly if no four bytes are |
| `PackageFraming.UnpackIntFormat` | dev_examples/pyserver/src/util/pys_package.py:40-41 | four bytes are unpacked as that number, and any other count raises |
| `PackageFraming.PackageFormat` | dev_examples/pyserver/src/util/pys_package.py:12-15 | a package is the letters 1Q2W3E4R, the length of the body as a signed number, and the body |
| `PackageFraming.HeaderFormat` | dev_examples/pyserver/src/util/pys_package.py:40-41 | a header announces the signed number behind those letters if it is twelve bytes long and begins with them, and raises otherwise |
| `PackageFraming.HeaderIsPacked` | dev_examples/pyserver/src/util/pys_package.py:40-41 | only the header that PackPackage writes announces a given body length |
| `PackageFraming.ReceiveAll` | dev_examples/pyserver/src/util/pys_common.py:7-17 | however the transport fragments the stream: exactly the next bytes asked for, or None with everything consumed if the peer closes first |
| `PackageFraming.Round` | dev_examples/pyserver/src/pys_tcpserver.py:65-90 | one pass of the loop is one step of the specification, in all its branches, and consumes input |
| `PackageFraming.Handler` | dev_examples/pyserver/src/pys_tcpserver.py:58-94 | the handler ends and does what the specification says of the whole stream, for every fragmentation |
| `PackageFraming.RecoversBodies` | dev_examples/pyserver/src/pys_tcpserver.py:65-90 | for any sequence of bodies of length 1 to 10485760 the loop recovers exactly those bodies in order, and goes on with what follows |
| `PackageFraming.HandlesExactly` | dev_examples/pyserver/src/pys_tcpserver.py:58-94 | everything a handler does, read off its stream and the application: the packed bodies that the application accepts are served in order; on what is left it raises if and only if that has twelve bytes and does not begin with the magic, or announces a length from 1 to 10485760 and is cut short without a key or complete and the application raises; otherwise it logs out, twice exactly if a body was cut short in a session with a key |
| `PackageFraming.ServesOnlyPackages` | dev_examples/pyserver/src/pys_tcpserver.py:65-90 | conversely, whatever arrives, the requests served are packed bodies that together begin the stream, and after them there are only logouts |
| `PackageFraming.ServedExactlyIfSendable` | dev_examples/pyserver/src/pys_tcpserver.py:70-90 | a packed body reaches the application if and only if its length is from 1 to 10485760 |
| `PackageFraming.BreakLogsOut` | dev_examples/pyserver/src/pys_tcpserver.py:92-94 | a handler that is not ended by an exception logs its connection out as its last act |
| `PackageFilters.ChecksumInverts` | dev_examples/pyserver/src/util/pys_package.py:76-87 | a package passes the test with some data if and only if it is what AddChecksum makes of that data |
| `PackageFilters.OneByteIsNoticed` | dev_examples/pyserver/src/util/pys_package.py:80-87 | changing any one byte of a package that passes, in checksum or data, makes the test reject it |
| `PackageFilters.ExchangeChangesChecksum` | dev_examples/pyserver/src/util/pys_package.py:77 | exchanging two different neighbouring bytes changes the checksum |
| `PackageFilters.AdlerFormula` | dev_examples/pyserver/src/util/pys_package.py:77 | the checksum is the number of section 2.2 of RFC 1950: the byte sum plus one modulo 65521 in the lower half, the weighted sum in the upper half, as a signed integer |
| `PackageFilters.ChecksumFormat` | dev_examples/pyserver/src/util/pys_package.py:76-78 | the four bytes in front of the data are that number, the most significant first |
| `PackageFilters.CipherInverts` | dev_examples/pyserver/src/util/pys_package.py:44-73 | decrypting what was encrypted gives back the input without its padding, for every length, if the block cipher inverts on whole blocks |
| `PackageFilters.EncryptFormat` | dev_examples/pyserver/src/util/pys_package.py:44-51 | encryption puts the length of the input, as a signed number, in front of the cipher text of the input filled up with underscores to a multiple of 16; it raises exactly for inputs of 2^31 bytes and more |
| `PackageFilters.DecryptFormat` | dev_examples/pyserver/src/util/pys_package.py:53-57 | decryption of anything raises exactly if there is no length; it keeps as much of the plain text as the length says, and for a negative length leaves as much of its end away |
| `PackageFilters.CompressionInverts` | dev_examples/pyserver/src/util/pys_package.py:89-96 | uncompressing what was compressed gives back the input, if deflate inverts |
| `PackageFilters.FiltersInvert` | dev_examples/pyserver/src/util/pys_package.py:98-113 | compression, checksum and both ciphers undone in reverse order give back the data, whenever wrapping did not raise |
| `PackageFilters.WrapLayers` | dev_examples/pyserver/src/util/pys_package.py:12-25 | a wrapped body has the documented layers: AES length, triple DES length, checksum, uncompressed length, compressed data, each one over all that follow |
| `PackageFilters.WrapSucceeds` | dev_examples/pyserver/src/util/pys_package.py:98-104 | wrapping does not raise for data that is short enough after compression, if the ciphers keep lengths |
| `HexDump.PrintHexAsciiLine` | dev_examples/network_capture/example/sniffex.c:96-142 | the three loops print exactly one row of the fixed layout |
| `HexDump.PrintPayload` | dev_examples/network_capture/example/sniffex.c:147-187 | the loop ends although its line length is written as 16 % remaining, and prints exactly the rows of the payload; nothing for a length that is not positive |
| `HexDump.RowsPartitionThePayload` | dev_examples/network_capture/example/sniffex.c:178-186 | the rows take the payload apart in order, all but the last have 16 bytes |
| `HexDump.ColumnsAt` | dev_examples/network_capture/example/sniffex.c:109-128 | byte i of a row stands in hex in columns that depend on i only; they are blank exactly if the row has no such byte |
| `HexDump.RowReads` | dev_examples/network_capture/example/sniffex.c:108-137 | in a row, the two characters in the columns of a byte, read as hexadecimal digits, are its value, and its place in the text shows the byte itself if it is from 32 to 126 and a dot otherwise |
| `HexDump.RowBlanks` | dev_examples/network_capture/example/sniffex.c:106-139 | every other place before the text is a space, also where the row has no byte, and the row ends its line |
| `HexDump.RowAt` | dev_examples/network_capture/example/sniffex.c:165-186 | row number k stands behind the rows before it and is labelled with the number of bytes in those |
| `HexDump.DumpIsLossless` | dev_examples/network_capture/example/sniffex.c:147-187 | two payloads have the same dump if and only if they are equal |
| `HexDump.LabelIsOffset` | dev_examples/network_capture/example/sniffex.c:106 | the label of a row, read as a decimal number, is the offset of the row |
| `HexDump.TextColumn` | dev_examples/network_capture/example/sniffex.c:131-139 | the text of a row begins at position 60 if and only if its offset is below 100000 |

## Left out

- Sockets, the event loop, coroutine scheduling, packet capture, redis, MySQL and JSON: only the effects stated under the assumptions.
- Thread start-up and shutdown, and the lifetime of the arguments passed to the threads: the model starts with all workers running.
- Failed writes to a pipe, and the size limits of `int` for buffers and messages beyond 2 GB.
- Protocol Buffers groups, UTF-8 checks, descriptors, reflection, registration and the default instances.
- EchoCallbacks.Context.WorkerRound: one round of the endless loop, started when its Get can go on and the pipe has room; rounds of different workers and callbacks overlap in the transition system only.
- EchoCallbacks.ReadLoop: the two branches of the loop are methods of their own.
- MessagePrograms.Program.Run: does not say which value a message has after a parse of it that failed; it is valid, and nothing else has changed.
- HexDump.PrintHexAsciiLine: each of its loops is a method of its own.
- MessageObjects.Userinfo.MergePartialFromCodedStream: the `goto` into the next case is the flag `taken` of the next round.
- Exceptions that end a connection's handler without the final logout, other than as the outcome `raised` of `PackageFraming.Handler`; the session claims are about handlers that leave by a break.
- PackageFraming.Handler: responses are not modelled, only which requests reach the application and in what order.
- `Final` of both pools, which iterates over a queue object and is never called.
- SessionCaches.CachesTellWhoIsConnected: does not speak of a uid after a raising call has made client and caches disagree, because the code then cannot know what the caches hold.
- The forked copy of the reference server, `lite_test/ip_hash`, clients, demos, the Windows service, logging and build scripts: they add no new behaviour.
- The dissection of packet headers in `got_packet`: printing of fields at fixed offsets.
