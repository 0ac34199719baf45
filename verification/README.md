# Verified model of the service framework's core

The repository is a C++ framework for services on one machine. Its components carry algorithms and protocols of their
own: a SHA-256 digest, an IPC protocol over stream sockets with a server and a client, a crash-safe key/value store, an
asynchronous log dispatcher with a rotating file sink, layered configuration, and a JSON line printer. This project
models them in Dafny and proves what they promise, for every input, chunking, interleaving, failure and crash.

`dafny verify dfyconfig.toml` checks everything. Code that changes fields, arrays or files step by step is a class or a
method with loops, proved against a specification made of functions; the laws are then proved about the specification.
Where several threads meet, each critical section, system call or atomic access is a step of a state machine, the
operating system is nondeterministic, and the results are about every run. In a run, `states[i]` is the state before
`steps[i]`.

| file | what it models |
|---|---|
| `Fips180.dfy`, `Sha256.dfy`, `Sha256Example.dfy` | the digest of FIPS 180-4, the buffered context that computes it, and a known answer |
| `Base64.dfy` | section 4 of RFC 4648 and the two in-place loops |
| `Framing.dfy`, `ConnectionWriters.dfy` | length-prefixed frames, the read and write loops, and many writers on one connection |
| `DescriptorTable.dfy`, `ClientTable.dfy` | the server's threads and its table of clients, as steps and as an object |
| `ServerConnection.dfy` | the request loop of one connection thread |
| `IpcClient.dfy`, `CallChannel.dfy` | calls with retry, and a client's connection down to the bytes at both ends |
| `Subscription.dfy` | the life of a subscription with its backoff |
| `AtomicWriter.dfy`, `Store.dfy`, `StoreRecovery.dfy` | the four-stage write against crashes, the store as a finite map, and the two together |
| `AsyncDispatcher.dfy`, `RollingFileSink.dfy` | the bounded queue and its worker, and file rotation |
| `ConfigTree.dfy`, `ConfigMerger.dfy`, `ConfigView.dfy` | deep merge as values and on mutable trees, and dotted lookup |
| `JsonLine.dfy` | the JSON printer and a reader that undoes it |
| `Numerals.dfy`, `Shared.dfy` | numerals, and small types used by the others |

Main results:

- **Digest.** However a message is cut into updates, the digest is that of FIPS 180-4: `Sha256Context.HashChunks`. The
  round constants and initial words are the fractions of cube and square roots that the standard says they are, and the
  digest of "abc" is worked out through all 64 rounds to the known answer.
- **Base64.** Decoding inverts encoding; encoding inverts decoding exactly on canonical text; the decoder's odd filler
  values never reach the output.
- **Frames.** With any number of writers, the stream is whole frames in lock order up to the first failed write, and
  reading it back under any cutting of the calls gives those frames.
- **Descriptors.** The server's table is exact at all times, and a counterexample shows that this rests on erasing a
  client before closing its descriptor. Exact conditions say when a disconnect can still be reported after stop and when a
  shutdown made by stop can hit a number that has been handed out again.
- **Calls.** A connection thread answers the requests of its connection in order, and over the bytes at both ends what a
  call returns tells by status and body what the server's handler made of a request of that same call. The client's
  closing rule is shown to be necessary: the next response is sure to be the right one exactly when nothing on the
  connection is unanswered and nothing was sent or read in part.
- **Subscriptions.** After a cancel has returned no callback runs, exactly unless its join test falls between the spawn of
  the read thread and the assignment of its handle; a run shows a callback in that case. The shutdown that wakes the reader
  is sure not to come after the reader's own close exactly if the exchange took no descriptor, so that there is none.
  A rejection is final, every other failure is retried, and a cancel can always return.
- **Store.** After a crash anywhere the recovered value is complete and not older than the last write that returned true. A
  save, wherever it fails or is cut off, leaves a store that is the old map or the map with the key set.
- **Log.** No line is lost, repeated or reordered between the queue and the writer, and only a line enqueued after the
  final drain can stay behind; at the limit the level alone decides, and Error and Fatal are never dropped; the drop counter
  is exact; a stop can always end; the files on disk are a contiguous suffix of the lines written,
  within the budget plus one line a file unless the configuration allows no file and one does not fit.
- **Configuration.** The in-place merge computes the functional one; the last layer that decides a path wins; regrouping
  layers is harmless if and only if a stated condition holds, and a counterexample lies outside it.
- **JSON.** A line determines its fields.

Where the code and its comments differ the model follows the code: the comment above the final `close` in
`src/ipc/ipc_server.cpp:391` says that it happens under the write lock, but no lock is taken there.

## Model

| member | source | states |
|---|---|---|
| Fips180.RoundConstantsAreCubeRootFractions | src/hash/sha256.cpp:96-113 | each of the 64 table entries is the first 32 bits of the fraction of the cube root of the corresponding prime |
| Fips180.InitialWordsAreSquareRootFractions | src/hash/sha256.cpp:122-131 | each initial state word is the first 32 bits of the fraction of the square root of one of the first eight primes |
| Fips180.ZeroBytesIsLeast | src/hash/sha256.cpp:174-186 | the number of zero bytes appended is the least that brings the length to 56 modulo 64 |
| Fips180.BigEndianRoundTrip | src/hash/sha256.cpp:84-93 | the length field, read as a big-endian number, is the bit length, with no wrap below its width |
| Fips180.ParseFlatten | src/hash/sha256.cpp:156-161 | cutting concatenated blocks into 64-byte pieces gives the blocks back |
| Fips180.WordBytesInverse | src/hash/sha256.cpp:68-81 | storing a word loaded from four bytes gives the bytes, and loading from the bytes stored for a word gives the word |
| Sha256Context.Context.constructor | src/hash/sha256.cpp:122-134 | a new context has absorbed the empty message |
| Sha256Context.Context.Update | src/hash/sha256.cpp:136-168 | a context that has absorbed m has absorbed m followed by data afterwards: the blocks processed so far and the buffered rest are exactly that message, the state is its hash so far, the bit counter its length modulo 2^64 |
| Sha256Context.Context.TopUp | src/hash/sha256.cpp:142-154 | a partial block takes the front of the data, and either it was completed and processed or the data ran out |
| Sha256Context.Context.Finalize | src/hash/sha256.cpp:170-198 | the blocks processed in all are the padded message of section 5.1.1, in one or two last blocks, and the digest is their hash |
| Sha256Context.Context.FillPadding | src/hash/sha256.cpp:171-186 | the input becomes the message, 0x80 and the least number of zero bytes, leaving eight bytes free in the buffer |
| Sha256Context.Context.ProcessBlock | src/hash/sha256.cpp:200-243 | the state becomes the section 6.2.2 function of the old state and the block |
| Sha256Context.Schedule | src/hash/sha256.cpp:201-210 | the two-phase loop fills the array with the recursively defined schedule |
| Sha256Context.CompressionLoop | src/hash/sha256.cpp:212-233 | the rotating eight variables end as 64 rounds of the standard's round function |
| Sha256Context.AddInto | src/hash/sha256.cpp:235-242 | each state word gains its own working variable, modulo 2^32 |
| Sha256Context.StoreBe32 | src/hash/sha256.cpp:76-81 | four bytes at the place become the big-endian word and no other byte changes |
| Sha256Context.StoreBe64 | src/hash/sha256.cpp:84-93 | eight bytes at the place become the big-endian number and no other byte changes |
| Sha256Context.Sha256OneShot | src/hash/sha256.cpp:251-268 | refused exactly for a null pointer with a size or a size of 2^61 or more; otherwise the FIPS 180-4 digest of the input |
| Sha256Context.HashChunks | src/hash/sha256.cpp:136-198 | for every list of chunks, empty ones included, one update each and finalize give the FIPS 180-4 digest of their concatenation |
| Sha256Example.DigestOfAbc | tests/test_sha256.cpp:46 | the digest of "abc" is ba7816bf 8f01cfea 414140de 5dae2223 b00361a3 96177a9c b410ff61 f20015ad, byte by byte |
| Sha256Example.Rotations | src/hash/sha256.cpp:39-65 | each rotation that the standard uses is the or of the two literal shifts, for every word |
| Sha256Example.SectionFourKnownAnswers | src/hash/sha256.cpp:39-65 | the six functions of section 4.1.2 have these values on these words |
| Sha256Example.ChChooses | src/hash/sha256.cpp:39-65 | Ch takes each bit from its second argument where the first has a one and from its third where it has a zero |
| Sha256Example.MajAgrees | src/hash/sha256.cpp:39-65 | Maj does not depend on the order of its arguments and takes each bit on which two agree |
| Sha256Context.ToHex | src/hash/sha256.cpp:270-281 | two lower-case digits a byte, from which the bytes can be read back |
| Base64.DecodeEncode | src/ipc/ipc_protocol.cpp:198-305 | decode(encode(d)) is d for every byte string |
| Base64.EncodeVectors | tests/test_ipc_protocol.cpp:271-292 | the test vectors of section 10 of RFC 4648 |
| Base64.EqualsSigns | src/ipc/ipc_protocol.cpp:226-243 | an encoding is alphabet letters and then as many equals signs as octets are missing from the last group |
| Base64.EncodeIsCanonical | src/ipc/ipc_protocol.cpp:198-246 | an encoding is correctly padded and has zero bits where its last group holds no octet |
| Base64.EncodeDecodeExactly | src/ipc/ipc_protocol.cpp:198-305 | encode(decode(s)) is s if and only if s is canonical |
| Base64.DecodeStops | src/ipc/ipc_protocol.cpp:256-302 | decoding depends on the longest prefix of alphabet characters only and yields floor(3k/4) bytes |
| Base64.TableIsAlphabet | src/ipc/ipc_protocol.cpp:193-196 | the 64 characters of the table are the alphabet of the RFC in its order |
| Base64.StrchrInvertsTheTable | src/ipc/ipc_protocol.cpp:263-267 | searching the table with its terminating zero gives the value of an alphabet character, 64 for zero, and nothing for any other character |
| Base64.FillerIsHarmless | src/ipc/ipc_protocol.cpp:281-301 | with 64 in the unused places of a group of two or three, the bytes that are kept are the octets of zero filler, while the last byte of a group of three, which is dropped, is off by 64 |
| Base64.KeptOctets | src/ipc/ipc_protocol.cpp:270-301 | the mask-and-shift bytes of a group of n characters, cut to n - 1, are its octets |
| Base64.FoundIndices | src/ipc/ipc_protocol.cpp:282-293 | looking up a group and the zeros behind it gives its values and 64 in every unused place |
| Base64.Encode | src/ipc/ipc_protocol.cpp:201 | the encoding has 4 * ceil(n / 3) characters |
| Base64.Base64Encode | src/ipc/ipc_protocol.cpp:198-246 | the loop over two small arrays computes the encoding of section 4 of RFC 4648 |
| Base64.EncodeOctet | src/ipc/ipc_protocol.cpp:211-224 | one pass keeps the octets seen split into those encoded and those waiting in the array |
| Base64.EncodeTail | src/ipc/ipc_protocol.cpp:226-243 | one or two left-over octets become their padded last group |
| Base64.Base64Decode | src/ipc/ipc_protocol.cpp:248-305 | the loop computes the decoding of the alphabet prefix, whatever follows it |
| Base64.DecodeLetter | src/ipc/ipc_protocol.cpp:256-279 | one pass keeps the characters seen split into those decoded and those waiting in the array |
| Base64.DecodeGroupInPlace | src/ipc/ipc_protocol.cpp:261-278 | a group of n characters appends exactly its n - 1 octets |
| Base64.DecodeTailInPlace | src/ipc/ipc_protocol.cpp:281-302 | the same for the characters left over at the end |
| Framing.WordRoundTrip | src/ipc/ipc_protocol.cpp:15-26 | a 32-bit header field reads back as written |
| Framing.StatusRoundTrip | src/ipc/ipc_protocol.cpp:28-39 | a signed status survives its unsigned header field |
| Framing.FrameLayout | src/ipc/ipc_protocol.cpp:15-52 | the word, the length and the payload in this order, both numbers least significant byte first |
| Framing.FrameIsUnique | src/ipc/ipc_protocol.cpp:15-52 | the encoding is prefix-free: a stream begins with at most one frame and one rest |
| Framing.HoldsFrameIff | src/ipc/ipc_protocol.cpp:65-73 | a frame in front of a stream can be read if and only if its payload is within the limit |
| Framing.TornFrame | src/ipc/ipc_protocol.cpp:58-76 | no proper prefix of a frame can be read as a frame |
| Framing.ReadExact | src/ipc/ipc_protocol.cpp:144-165 | reads exactly the size or fails, takes a prefix of the stream either way, and succeeds if the bytes are there and no call fails, however calls are cut or interrupted |
| Framing.WriteAll | src/ipc/ipc_protocol.cpp:167-187 | sends all of the data, or reports failure after a proper prefix of it, which happens only if a call fails |
| Framing.WriteFrame | src/ipc/ipc_protocol.cpp:122-138 | the same for one encoded frame |
| Framing.ReadFrame | src/ipc/ipc_protocol.cpp:58-116 | a frame is returned only if the stream began with it and it fits; it is returned if the stream holds it and no call fails |
| Framing.ReadFrames | src/ipc/ipc_protocol.cpp:58-116 | reading on gives the frames written, in order and nothing else; all of them if no call fails |
| ConnectionWriters.RunKeepsInv | src/ipc/ipc_server.cpp:202-211 | in every reachable state the holder of the lock is alone inside a frame and the stream is whole frames and its part |
| ConnectionWriters.StreamIsWholeFrames | src/ipc/ipc_server.cpp:364-370 | for every interleaving with short sends, the stream is whole frames in lock order and the holder's prefix, up to the first failed write |
| ConnectionWriters.WritersExclude | src/ipc/ipc_server.cpp:230-231 | no two writers are inside a frame at once |
| ConnectionWriters.FinishedHow | src/ipc/ipc_server.cpp:202-211 | a write returned true if and only if it completed |
| ConnectionWriters.CompletedIsWhole | src/ipc/ipc_server.cpp:202-211 | up to the first failed write, when a write completes the stream is the frames of all writers so far and its own is the last |
| ConnectionWriters.ReadBack | src/ipc/ipc_protocol.cpp:58-165 | reading that stream under any cutting of the calls gives the frames in lock order, all of them if no call fails |
| DescriptorTable.StepKeepsInv | src/ipc/ipc_server.cpp:260-401 | every step of the accept thread, a connection thread, a subscription call, stop or the rest of the process keeps the table invariant |
| DescriptorTable.TableIsExact | src/ipc/ipc_server.cpp:300-304 | in every run the table maps exactly the numbers of the listed connections, each to its owner, and these are open |
| DescriptorTable.InsertNeverOverwrites | src/ipc/ipc_server.cpp:300-304 | the insert on accept finds its number absent and adds just that entry |
| DescriptorTable.EraseRemovesItsOwn | src/ipc/ipc_server.cpp:373-377 | a connection's erase finds its own entry and removes it and no other; no other step but the insert changes the table |
| DescriptorTable.ServingFindsItself | src/ipc/ipc_server.cpp:350-362 | a connection thread in its loop always finds its own state under its number |
| DescriptorTable.ReportAfterStopIff | src/ipc/ipc_server.cpp:379-389 | once the server is not running, a run can go on to the report of a disconnect if and only if its thread has a copy of the handler, or has passed its test and finds the handler still there |
| DescriptorTable.ReportAfterReturnIff | src/ipc/ipc_server.cpp:160-165 | after stop has returned, if and only if the copy was taken before |
| DescriptorTable.CopyOutlivesStop | src/ipc/ipc_server.cpp:132-187 | a run reaches that case |
| DescriptorTable.AllAreShutDown | src/ipc/ipc_server.cpp:148-158 | every number that stop has collected is shut down before it goes on |
| DescriptorTable.NobodyIsMissed | src/ipc/ipc_server.cpp:143-155 | a connection that is served any time after the collection was among those collected |
| DescriptorTable.ShutdownHitsForeignIff | src/ipc/ipc_server.cpp:148-158 | from the moment stop has collected the numbers, a run can go on to a shutdown of a number that belongs to somebody else by then if and only if any was collected |
| DescriptorTable.NumberIsHandedOn | src/ipc/ipc_server.cpp:148-158 | so it is with each of the numbers collected |
| DescriptorTable.ClosedAndReportedOnce | src/ipc/ipc_server.cpp:379-396 | each connection is closed and reported at most once, after leaving the table, and its number stays open until then |
| DescriptorTable.ReportedIff | src/ipc/ipc_server.cpp:379-396 | a connection that has been closed has been reported if and only if its thread got a copy of a disconnect handler |
| DescriptorTable.PushReachesExactlySubscribers | src/ipc/ipc_server.cpp:189-200 | what a push collects is exactly the listed connections with the subscription, under their own open numbers |
| DescriptorTable.SubscriptionsAreSeparate | src/ipc/ipc_server.cpp:234-252 | a subscription call changes the connection it names as asked, and no other |
| DescriptorTable.CloseBeforeEraseLosesAConnection | src/ipc/ipc_server.cpp:373-396 | were the close to come before the erase, then from the end of a run an insert would overwrite an entry and the late erase would remove a live connection's |
| ClientTable.Table.InsertClient | src/ipc/ipc_server.cpp:300-304 | on the object, the insert carries out its step and adds a fresh state under a number that was absent |
| ClientTable.Table.EraseClient | src/ipc/ipc_server.cpp:373-377 | the erase carries out its step and removes one entry that was there |
| ClientTable.Table.AddSubscription | src/ipc/ipc_server.cpp:234-242 | carries out its step, touches only the named client's state, and is refused exactly for an unknown number |
| ClientTable.Table.RemoveSubscription | src/ipc/ipc_server.cpp:244-252 | the same for removal |
| ClientTable.Table.CollectTargets | src/ipc/ipc_server.cpp:190-200 | the walk over the table, in any order, collects every subscriber once and nobody else |
| ClientTable.Table.PushEvent | src/ipc/ipc_server.cpp:189-213 | every subscriber is sent a prefix of the frame, nobody else a byte, and the answer is true if and only if some subscriber got all of it |
| ClientTable.Table.PushEventTo | src/ipc/ipc_server.cpp:215-232 | a single push goes out only to a subscribed connection in the table, and is true if and only if the whole frame went |
| ServerConnection.ServeOne | src/ipc/ipc_server.cpp:320-370 | one pass takes the next request from the stream, has it handled once and gives the connection that response whole, in part or not at all |
| ServerConnection.Serve | src/ipc/ipc_server.cpp:319-371 | the requests handled are the first ones sent, each once and in order, and the connection is given the responses to them in that order, the last perhaps in part |
| ServerConnection.ReadAnswers | src/ipc/ipc_protocol.cpp:78-96 | at the other end, however the calls are cut, the i-th response read tells what became of the i-th request: status 0 and the payload if and only if the handler returned, status 306 and nothing otherwise; all that were sent whole are read if no call fails |
| ServerConnection.ResponseTo | src/ipc/ipc_server.cpp:336-348 | status 0 with the payload if and only if the handler returned; 306 and an empty body if it threw or there was none |
| CallChannel.MatchesExactlyWhenSettled | src/ipc/ipc_client.cpp:461-475 | whatever is read next is sure to answer the request just sent if and only if nothing sent on the connection was unanswered or broken off |
| IpcClient.Client.DoConnect | src/ipc/ipc_client.cpp:432-459 | success and only success leaves the client connected on one open, settled descriptor |
| IpcClient.Client.CloseConnection | src/ipc/ipc_client.cpp:297-302 | closes the descriptor if there is one and leaves none open |
| IpcClient.Client.DoCall | src/ipc/ipc_client.cpp:461-475 | one request is begun; on success the server's handler was asked just that, the status and body kept are those of what became of it, and the connection is settled again |
| IpcClient.Client.Call | src/ipc/ipc_client.cpp:310-378 | a returned result tells what became of a request of this call at the server: status 0 and the payload if and only if the handler returned, 306 and nothing if it did not; at most two attempts are made, the error is -304 exactly after two and -301 otherwise, and a failure leaves no connection |
| IpcClient.Client.AttemptOrClose | src/ipc/ipc_client.cpp:325-345 | an attempt either succeeds on the connection in use or leaves none |
| IpcClient.Client.Retry | src/ipc/ipc_client.cpp:347-377 | the second attempt goes over a new connection, with the error code saying whether there was one |
| IpcClient.Client.CallOnce | src/ipc/ipc_client.cpp:380-416 | the same with at most one attempt, the error being -304 exactly after one |
| CallChannel.NextFrame | src/ipc/ipc_protocol.cpp:58-116 | a reader of frames and a rest that holds none takes the first of the frames, in full |
| CallChannel.Decompose | src/ipc/ipc_protocol.cpp:58-116 | every stream is some frames that can be read and a rest that holds none |
| CallChannel.Channel.constructor | src/ipc/ipc_client.cpp:432-459 | a new connection has nothing on its way and nothing unanswered |
| CallChannel.Channel.WriteRequest | src/ipc/ipc_client.cpp:461-466 | the request joins those on their way, or the connection is torn |
| CallChannel.Channel.ServerTurn | src/ipc/ipc_server.cpp:319-371 | a pass of the connection thread over whatever bytes have arrived keeps the order of requests and responses on the connection |
| CallChannel.Channel.ReadResponse | src/ipc/ipc_client.cpp:466-475 | what is read answers the oldest unanswered request, which the handler was asked, and tells by status and body what became of it |
| CallChannel.Channel.Attempt | src/ipc/ipc_client.cpp:461-475 | on a settled connection the response to a request tells by status and body what the handler made of that very request, and the connection is settled again; after a failure it is torn |
| IpcClient.RunOperations | src/ipc/ipc_client.cpp:277-416 | over any run of calls, connects and disconnects, with reads and writes failing anywhere, every result belongs to its own operation and tells what became of it at the server, and no answer serves two |
| Subscription.StepKeepsInv | src/ipc/ipc_client.cpp:103-248 | every step of the starting thread, the read thread and concurrent cancels keeps the lifecycle invariant |
| Subscription.JoinedOnce | src/ipc/ipc_client.cpp:103-127 | the thread is joined at most once and only when ended, and a cancel leaves it joined if and only if its handle was assigned before the join test |
| Subscription.ClosedExactlyOnce | src/ipc/ipc_client.cpp:134-248 | descriptors are closed in the order opened, each once, at most one is open, and none when the thread has ended |
| Subscription.SameParams | src/ipc/ipc_client.cpp:205-209 | every connect and reconnect sends the same params |
| Subscription.EachOnce | src/ipc/ipc_client.cpp:205-248 | each of them sends one request, and each event read enters the callback once |
| Subscription.AcceptedFirst | src/ipc/ipc_client.cpp:211-224 | the read thread gets to the events of a connection only after the server has accepted the subscription on it |
| Subscription.RejectionIsFinal | src/ipc/ipc_client.cpp:143-147 | after a rejection nothing is opened or sent any more and no callback is entered |
| Subscription.FailureIsRetried | src/ipc/ipc_client.cpp:149-172 | after any other failure the read thread begins another round if it has not been cancelled |
| Subscription.EndsForAReason | src/ipc/ipc_client.cpp:134-176 | it ends only if a cancel came first or the server rejected |
| Subscription.LeavesForAReason | src/ipc/ipc_client.cpp:229-248 | it leaves the events of a connection only after a failed read or once the subscription is not active |
| Subscription.CancelledOpensNoMore | src/ipc/ipc_client.cpp:134-176 | once cancelled it begins no connection any more |
| Subscription.CancelCanReturn | src/ipc/ipc_client.cpp:103-127 | a run with a cancel in progress can always go on until that cancel returns |
| Subscription.NoCallbackAfterCancel | src/ipc/ipc_client.cpp:103-127 | in every run no callback runs or is entered after a cancel has returned, if and only if the join test does not come between the spawn of the thread and the assignment of its handle |
| Subscription.BetweenDependsOnReader | src/ipc/ipc_client.cpp:229-248 | even then none follows if the read thread is neither reading nor in a callback at the join test |
| Subscription.CallbackCanFollow | src/ipc/ipc_client.cpp:103-127 | and if it is, the run can go on to a callback after the cancel has returned |
| Subscription.CallbackAfterReturn | src/ipc/ipc_client.cpp:103-127 | such a run exists |
| Subscription.ShutdownIsSafeIff | src/ipc/ipc_client.cpp:112-118 | from the exchange of m_fd on, a cancel is sure not to shut down a descriptor that has been closed if and only if the exchange took none, the test in front of the shutdown |
| Subscription.ShutdownCanComeLate | src/ipc/ipc_client.cpp:112-168 | whenever an exchange took a descriptor, the run can go on so that the read thread has closed it when the shutdown comes |
| Subscription.ExchangeIsReached | src/ipc/ipc_client.cpp:112-118 | a run reaches such an exchange |
| Subscription.ShutdownHitsItsOwn | src/ipc/ipc_client.cpp:112-118 | in every run the shutdown comes late exactly if the read thread's close comes between the exchange and it |
| Subscription.CalculateBackoff | src/ipc/ipc_client.cpp:68-77 | the loop, which stops early once at the maximum, computes the backoff defined attempt by attempt for every multiplier with which the conversions it makes are defined |
| Subscription.AllConvertIf | src/ipc/ipc_client.cpp:70-71 | every conversion is defined if the initial value is not below the maximum, or if the one of the largest value below it is |
| Subscription.BackoffIsMonotone | src/ipc/ipc_client.cpp:68-77 | with a multiplier of at least one the backoff never falls, starts at the initial value and stays within the larger of initial and maximum |
| Subscription.BackoffIsGeometric | src/ipc/ipc_client.cpp:68-77 | for a whole multiplier it is the initial value times the power of the multiplier, up to the maximum |
| Subscription.DefaultBackoffs | include/ipc_types.h:57-61 | with the default configuration the delays are 100, 200 and so on to 3200 and then 5000 |
| AtomicWriter.StepKeepsInv | src/store/store_atomic_writer.cpp:16-99 | every step of any writer, failing or not, and every crash keeps the disk invariant |
| AtomicWriter.RecoveredValueIsComplete | src/store/store_atomic_writer.cpp:16-47 | after a crash the key is absent only if no write ever returned true, and otherwise holds in full the last such value or one attempted since |
| AtomicWriter.ReturnedWrite | src/store/store_atomic_writer.cpp:39-46 | a true return means visible and safe in every state a crash may bring back; a false one left the old or the new value visible |
| AtomicWriter.WritersAreSeparate | src/store/store_atomic_writer.cpp:60-99 | another key's writer changes neither what is visible under a key nor what a crash may bring back for it |
| AtomicWriter.Process.OtherStep | src/store/store_atomic_writer.cpp:16-47 | a step of another key's writer leaves this key's writer, ledger and visible value alone |
| AtomicWriter.Process.RunStages | src/store/store_atomic_writer.cpp:20-46 | the stages with early exits and cleanup end in a verdict about the value that was begun |
| AtomicWriter.Process.Write | src/store/store_atomic_writer.cpp:16-47 | with other writers active throughout: true commits the value, false leaves the old or the new one visible |
| Store.PathResolver.NamesAreDistinct | src/store/store_path_resolver.cpp:27-33 | the data, temporary and lock names of all keys are pairwise distinct |
| Store.PathResolver.KeysNameEntries | src/store/store_path_resolver.cpp:23-33 | a key without a slash names files of the store directory itself |
| Store.PathResolver.Make | src/store/store_path_resolver.cpp:10-21 | an empty service name is refused, and a non-empty root ends in a slash |
| Store.PathsByExample | tests/test_store_path_resolver.cpp:12-15 | the paths of one store and one of its keys, written out |
| Store.ServicesAreSeparate | src/store/store_path_resolver.cpp:23-25 | two services under one root have no file in common |
| Store.OpenStore | src/store/store.cpp:19-25 | a new store represents the map that the data files found hold, whatever temporary and lock files are left over |
| Store.StoreImpl.Acquire | src/store/store_file_lock.cpp:23-52 | a key not yet held gets its lock file; one already held changes nothing |
| Store.StoreImpl.Release | src/store/store_file_lock.cpp:54-67 | a held key loses its lock file and nothing else changes |
| Store.StoreImpl.AtomicWrite | src/store/store_atomic_writer.cpp:16-47 | with no failure, the key's file holds the data, its temporary file is gone and no other file changed |
| Store.StoreImpl.Save | src/store/store.cpp:30-58 | the files represent the map with the key set, the temporary and lock file of the key are gone and no other file changed; refused exactly when the store is not ready |
| Store.StoreImpl.Load | src/store/store.cpp:61-89 | the value of the key in the map, or the not-found or not-ready error |
| Store.StoreImpl.LoadOr | src/store/store.cpp:92-101 | the default stands in for a missing key only |
| Store.StoreImpl.Has | src/store/store.cpp:103-108 | true exactly for a key of the map in a ready store |
| Store.StoreImpl.Remove | src/store/store.cpp:110-124 | the files represent the map without the key, whether or not it was there, and no other key's file changed |
| Store.StoreImpl.Run | src/store/store.cpp:30-124 | any sequence of operations is answered as a finite map answers it, the empty string included |
| Store.OtherKeysDoNotMatter | src/store/store.cpp:30-124 | operations on other keys never change what is stored under a key |
| StoreRecovery.FilesHoldWhatIsShown | src/store/store.cpp:61-89 | a directory of the crash model in which the keys lead to the values of a map is one whose files represent that map to the store |
| StoreRecovery.SaveIsAtomic | src/store/store.cpp:30-58 | at every point of a save, failures and a crash included, the files represent the old map or the map with the key set, and so does every state that a crash may bring back |
| StoreRecovery.CrashRecovers | src/store/store_atomic_writer.cpp:16-47 | after a crash inside a save the disk holds one of the two maps for good, so that further saves and crashes are covered |
| StoreRecovery.SavedIsDurable | src/store/store_atomic_writer.cpp:39-46 | a save that returns true leaves the map with the key set, now and after any crash |
| StoreRecovery.SavedAsInStore | src/store/store_atomic_writer.cpp:16-47 | the files it leaves are exactly those that the store's own write leaves |
| AsyncDispatcher.StepKeepsInv | src/log/log_async_dispatcher.cpp:19-106 | every step of submitters, worker and stopper keeps the invariants on order, mutex, counter and accepted lines |
| AsyncDispatcher.Conservation | src/log/log_async_dispatcher.cpp:79-106 | what was ever enqueued is, in order and without repetition, what was written, the rest of the worker's batch and the queue, and the queue stays within its limit |
| AsyncDispatcher.DropsAreCounted | src/log/log_async_dispatcher.cpp:64-65 | the drop counter is the number of submits that returned false, and at most one ahead while one is being refused |
| AsyncDispatcher.AcceptedLinesAreKept | src/log/log_async_dispatcher.cpp:38-66 | a submit that returned true has its line enqueued or written by itself, and one with level Error or Fatal is never on the way to being refused |
| AsyncDispatcher.LevelDecides | src/log/log_async_dispatcher.cpp:41-65 | in every run a line enters a queue with room; at the limit exactly Error and Fatal are written at once, exactly a Warn waits, and every other level is refused |
| AsyncDispatcher.SecondLook | src/log/log_async_dispatcher.cpp:53-62 | only a warning looks again, and it enters the queue exactly if there is room then |
| AsyncDispatcher.StopWritesEverything | src/log/log_async_dispatcher.cpp:24-36 | when the drain of stop ends everything ever enqueued has been written |
| AsyncDispatcher.StopCanEnd | src/log/log_async_dispatcher.cpp:24-36 | a run in which stop has begun can always go on, without a new submit, until stop has drained the queue |
| AsyncDispatcher.StopIsFinal | src/log/log_async_dispatcher.cpp:24-36 | from then on nothing is written from the queue, and the queue holds exactly the lines enqueued since |
| AsyncDispatcher.OnlyLateLinesAreLeft | src/log/log_async_dispatcher.cpp:24-66 | a line left in the queue belongs to a submit that had not returned when the drain ended, so with no submit in flight and none begun nothing is left |
| AsyncDispatcher.Dispatcher.Submit | src/log/log_async_dispatcher.cpp:38-66 | on the object, level by level: into a queue with room; at the limit Error and Fatal are written at once, a Warn looks again after the worker may have run and is accepted exactly if there is room then, all others are dropped and counted |
| AsyncDispatcher.Dispatcher.TakeBatch | src/log/log_async_dispatcher.cpp:92-95 | the loop moves the first 64 lines, or all, to the batch in order |
| AsyncDispatcher.Dispatcher.Drain | src/log/log_async_dispatcher.cpp:30-35 | the queue is written out in order and left empty |
| RollingFileSink.NameRoundTrip | src/log/log_rolling_file_sink.cpp:112-134 | the index is read back from the file name it was put in, for every index |
| RollingFileSink.NameByExample | src/log/log_rolling_file_sink.cpp:112-116 | two file names written out |
| RollingFileSink.Sink.constructor | src/log/log_rolling_file_sink.cpp:14-21 | a sink on an empty directory is valid and has written nothing |
| RollingFileSink.Sink.OpenNewFile | src/log/log_rolling_file_sink.cpp:77-97 | opens the file of the current index without losing content and takes its true size |
| RollingFileSink.Sink.Write | src/log/log_rolling_file_sink.cpp:30-45 | after every write the files are an index window of whole lines that are together a suffix of all lines, all but the current one full; none is given up before max_files are there, and one at a time then |
| RollingFileSink.Sink.RotateIfNeeded | src/log/log_rolling_file_sink.cpp:99-110 | at max_file_size_mb times 1048576 bytes a new file is begun and the oldest is given up exactly when max_files, or one if that is none, are there; below it nothing changes |
| RollingFileSink.Sink.RemoveOldestFile | src/log/log_rolling_file_sink.cpp:118-147 | the file removed is the one of the least index and the window moves up by one |
| RollingFileSink.Sink.OldestFile | src/log/log_rolling_file_sink.cpp:123-142 | the directory scan, in any order, finds the file of the least index |
| RollingFileSink.Sink.CountFiles | src/log/log_rolling_file_sink.cpp:149-164 | the count is the number of files in the window |
| RollingFileSink.RunWrites | src/log/log_rolling_file_sink.cpp:14-45 | any list of lines written from an empty directory on leaves the sink valid with exactly those lines as its history |
| RollingFileSink.FileSizeBound | src/log/log_rolling_file_sink.cpp:99-101 | a file exceeds a positive limit by less than one line |
| RollingFileSink.FullExceedsByLessThanALine | src/log/log_rolling_file_sink.cpp:99-101 | a full file exceeds the limit by less than its last line if and only if the limit is positive |
| RollingFileSink.WithinBudget | src/log/log_config_adapter.cpp:133-141 | if max_file_size_mb times the number of files there can be is within the budget, the files together stay within it plus one line a file |
| RollingFileSink.AcceptedFits | src/log/log_config_adapter.cpp:133-141 | for an accepted configuration that is so if and only if max_files is not zero or one file fits the budget |
| RollingFileSink.ExceedBudget | src/log/log_config_adapter.cpp:133-141 | if it is not so, a run of writes exceeds the budget by more than one line |
| ConfigTree.MergeMapGet | src/config/config_merger.cpp:40-61 | under every key the merged map holds the combination of what both maps hold there |
| ConfigTree.MergeMapKeys | src/config/config_merger.cpp:40-61 | the key order is the base's keys followed by the new ones in override order |
| ConfigTree.OverAt | src/config/config_merger.cpp:40-61 | at every path the override decides if it says anything there, nested nulls included, and the base otherwise |
| ConfigTree.LastDecidingLayerWins | src/config/config_merger.cpp:28-38 | at every non-empty path the last layer that decides it settles what is seen, top-level nulls being skipped |
| ConfigTree.UndecidedPathIsEmpty | src/config/config_merger.cpp:28-38 | a path that no layer decides holds nothing |
| ConfigTree.MergeIsIdempotent | src/config/config_merger.cpp:6-26 | merging a tree over itself changes nothing |
| ConfigTree.AbsorbedIff | src/config/config_merger.cpp:17-25 | merging a under c gives c if and only if a structural condition on their keys and kinds holds |
| ConfigTree.KeyOrderIsAssociative | src/config/config_merger.cpp:40-61 | the key order of three merged maps does not depend on the grouping |
| ConfigTree.MergeRegroup | src/config/config_merger.cpp:28-38 | regrouping three layers gives the same tree if and only if one is null or no map resurfaces behind a non-map |
| ConfigTree.GroupingMatters | src/config/config_merger.cpp:28-38 | map, scalar, map: the two groupings differ, so the left fold matters |
| ConfigMerger.Clone | src/config/config_merger.cpp:9-14 | a copy of the same tree that shares no node with the original |
| ConfigMerger.MergeMapInPlace | src/config/config_merger.cpp:40-61 | on alias-free mutable trees the in-place merge computes the functional one and leaves the override tree unchanged |
| ConfigMerger.MergeEntry | src/config/config_merger.cpp:41-60 | one entry is merged, replaced or added at the end, in place |
| ConfigMerger.MergeNodes | src/config/config_merger.cpp:6-26 | the result is a new tree, the functional merge of both, and neither argument is touched |
| ConfigMerger.MergeMultiple | src/config/config_merger.cpp:28-38 | the fold over the layers gives the functional merge of all of them in a new tree |
| ConfigView.SplitDistributes | src/config/immutable_config_view.cpp:138-150 | splitting distributes over joining two strings with a dot, empty strings and repeated dots included |
| ConfigView.SplitJoin | src/config/immutable_config_view.cpp:138-150 | splitting undoes joining non-empty dot-free parts |
| ConfigView.SplitGivesParts | src/config/immutable_config_view.cpp:143-147 | every part is non-empty and free of dots |
| ConfigView.WalkAppend | src/config/immutable_config_view.cpp:121-135 | looking up a path and then another is looking up both in a row |
| ConfigView.View.SectionComposes | src/config/immutable_config_view.cpp:86-96 | a lookup of q in the section at p is the lookup of p.q in the parent, for all strings |
| ConfigView.View.SectionGettersAgree | src/config/immutable_config_view.cpp:12-31 | so the getters of a section agree with the parent's |
| ConfigView.WalkIsStatus | src/config/immutable_config_view.cpp:116-136 | what a lookup returns is fixed by what the tree says about the path |
| ConfigView.GettersReadTheTree | src/config/immutable_config_view.cpp:12-96 | a getter gives the scalar that the tree has at the path and the default for anything else; has holds exactly for a map or a leaf that is not null; a section is there exactly for a map, and is that map |
| ConfigView.GettersByExample | src/config/immutable_config_view.cpp:12-96 | for instance |
| ConfigView.LayeredLookup | src/config/immutable_config_view.cpp:12-96 | over merged layers the getters give the value that the last layer deciding the path has there |
| ConfigView.UndecidedLookup | src/config/immutable_config_view.cpp:12-96 | and the default, with nothing present and no section, if no layer decides the path |
| ConfigView.SplitPath | src/config/immutable_config_view.cpp:138-150 | the getline loop computes the split |
| ConfigView.GetNode | src/config/immutable_config_view.cpp:116-136 | the loop over the parts computes the lookup |
| JsonLine.QuotedReads | src/log/log_json_formatter.cpp:20-44 | an escaped string has no character below 0x20 and reads back, by section 7 of RFC 8259, as the original, whatever follows it |
| JsonLine.ValueReads | src/log/log_json_formatter.cpp:46-62 | a printed string, 64-bit integer or boolean reads back with its type and value |
| JsonLine.LineReads | src/log/log_json_formatter.cpp:9-18 | a line has no character below 0x20 and a strict reader recovers the same keys, types and values in the same order |
| JsonLine.LinesAreUnambiguous | src/log/log_json_formatter.cpp:9-18 | different lists of fields give different lines |
| JsonLine.EscapesWrittenOut | src/log/log_json_formatter.cpp:23-40 | the seven short escapes, three long ones, and every other character as itself |
| JsonLine.LineByExample | src/log/log_json_formatter.cpp:9-18 | two lines written out |
| JsonLine.EscapeString | src/log/log_json_formatter.cpp:20-44 | the loop computes the escaped string |
| JsonLine.FormatValue | src/log/log_json_formatter.cpp:46-62 | the case analysis computes the value's text |
| JsonLine.Format | src/log/log_json_formatter.cpp:9-18 | the loop's line reads back as the fields it was given |

## Left out

- Sockets, `select`, `fcntl`, `flock`, `fsync`, directory listing, clocks and sleeping are nondeterministic steps or
  choices; no claim is about time, and what a shutdown does to the connection it hits is not modelled.
- Start-up and tear-down of the server (`bind`, `listen`, the shutdown pipe, unlinking the socket path) and what a request
  handler computes.
- yaml-cpp itself: parsing, dumping, aliases, undefined nodes and the reference semantics of its assignment; dumping a
  tree and loading it again is taken to give it back. `getInt`, `getDouble`, `getBool`, `getStringList` and `getKeys`
  would only add easy members.
- Redactor, level filter, enricher, standard formatter, console sink, flush policy, validator, application life cycle and
  the OpenSSL and hexadecimal helpers: easy members, I/O or foreign calls.
- Framing.WordRoundTrip: the header is copied in the machine's byte order; the model takes it to be little-endian on both
  ends, which share a host.
- Framing.ReadExact: a schedule of calls is finite, so an endless series of interruptions, in which the code would loop
  for ever, is not modelled; it is reported as a failure.
- Base64.Base64Decode: the index `in_` is an `int` in the code and unbounded here, `isalnum` is that of the "C" locale, and
  the early `return ""` for a character outside the alphabet is not written out, because the loop guard excludes it.
- ConnectionWriters.StreamIsWholeFrames: says nothing about bytes after the first failed write, since a push does not close
  the connection and later writers go on; nor about a push that reaches a number handed out again, whose frame the owner's
  lock does not keep apart from those of its own writers.
- DescriptorTable.ReportAfterReturnIff: one start; a second stop returns at once without waiting for the first, and a
  restart, which could set a handler again, is left out.
- DescriptorTable.PushReachesExactlySubscribers: speaks of the moment of the snapshot; that a number is not handed out
  again before the push has used it is not proved, and is false in general.
- ClientTable.Table.PushEvent: the push of one thread while the table is left alone; writers that compete for a connection
  are the subject of ConnectionWriters.
- ServerConnection.Serve: pushes to the same connection and the look-up of its own state, which always succeeds, are left
  out.
- IpcClient.RunOperations: one operation at a time; connect or disconnect racing with a call, and with it the branch for a
  negative descriptor, is left out, as are event frames on a connection used for calls and pushes from the server.
- CallChannel.Channel.Attempt: payloads of 2^32 bytes and more, whose length does not fit its field, are left out, as in
  ServerConnection.
- Subscription.NoCallbackAfterCancel: cancels made from the callback itself, which would join their own thread, are left
  out; reading and assigning the thread's handle at the same time, which C++ leaves undefined, are atomic here.
- Subscription.ShutdownCanComeLate: whom a late shutdown hits, if the number has been handed out again, is not modelled.
- Subscription.CalculateBackoff: the floating multiplier is read as a real number, and calls that convert a product of -1
  and below or of 2^32 and above, which C++ leaves undefined, are excluded.
- AtomicWriter.RecoveredValueIsComplete: one writer per key; a rename is one change of the directory, directory changes
  survive in order, and a crash keeps any of the states since the last directory sync with arbitrary content in unsynced
  files.
- StoreRecovery.SaveIsAtomic: one save at a time, begun when every state that a crash may bring back holds the same map;
  lock files and removals, which are not made durable, are left out.
- Store.StoreImpl.Save: locks and file operations succeed, so the lock, write and serialization errors do not occur;
  values are strings; exclusion by the lock is not claimed, since a key already held in the same object is granted again
  and release unlinks the lock file.
- AsyncDispatcher.StopIsFinal: one start, and one stop that begins after the start has finished, so a stop racing with the
  start is excluded; `flush`, which only waits for an empty queue for a limited time, and the wrap of the 64-bit counter
  are left out.
- AsyncDispatcher.Dispatcher.Submit: with one submitter; the state machine has any number.
- RollingFileSink.RunWrites: begins with an empty directory and successful file operations; restarts into a directory with
  files, the wrap of the index at 2^32 and service names that contain ".log" are left out.
- JsonLine.LineReads: fields with doubles are left out; with them a line would be ambiguous, since the double 1 prints as
  the integer 1 does. The reader knows no white space, nesting, null or surrogate pairs, none of which the printer makes.
