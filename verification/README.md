# Models of the Visual Studio Code CLI's protocols and storage, and of two repository scripts

This project models, in Dafny, the parts of the repository whose correctness rests on
interleavings, failures or arithmetic, and proves what those parts are for.

**Streams over one RPC connection** (`cli/src/rpc.rs`, `cli/src/msgpack_rpc.rs`). A connection
carries requests, responses and the data of duplex streams.

* `MsgPack` is the wire format, `Envelope` and `Messages` are the shapes read from and written to it,
  `MsgPackCodec` is the streaming decoder over a growing buffer. `WireFormat` and `EnvelopeFields` say
  what the bytes of the format are, what its verdicts mean and which values are envelopes.
* `Streams` is the table of streams with its locked regions as methods, and the write loop run on
  its own. `StreamEngine` puts the table, the spawned write loops and the removers into one
  transition system: one event is one locked region, some bytes of an item, the end of an item, a
  write error or a shutdown, and a run is any sequence of enabled events. Its invariant says where
  every write half is and that finished items, the batch in flight and the queue are together what
  was accepted. A write waits while the pipe behind it is full. `StreamWork` adds up the steps its
  tasks and the readers of the pipes still owe, and `StreamFailures` says what a failed write loses.
* `Inbound` adds the bytes coming in, in reads of any size, and `StreamMethods` the real messages:
  what a peer sends on a stream arrives, whole and in order, however it is cut and interleaved, after
  a bounded number of steps.
* `RpcCalls` follows outgoing calls to their completion, `RpcServer` incoming requests to their
  replies and the data of duplex streams out to the peer. `Connection` runs `RpcServer` and `Inbound`
  together from the start of a connection: registering a stream and receiving data for it, and
  `RpcSession` states that for the real messages. `Backpressure` is the bounded channel between the
  tasks that reply and the one that writes.

**Credentials** (`cli/src/auth.rs`). `Keyring` cuts a sealed text over bounded entries and joins it
again, `CredentialCache` is the cached last read over a keyring with a time limit and a single
fail-over to a file, with what each leaves for the next process, and `DevicePolling` the polling of
the device-code login (section 3.5 of RFC 8628).

**The download cache** (`cli/src/download_cache.rs`, `cli/src/state.rs`). `PersistedState` is a value
in memory and in a file, `DownloadCache` the list of recently used names over it with the
directories it stands for; removals, renames and writes may fail. `CacheRestarts` follows the cache
through any number of processes, each starting from the file.

**Source transformations** (`scripts/sync-agent-host-protocol.ts`): `ImportMerging`,
`FormatterEdits` and `Indentation`. **Output piping** (`src/bootstrap-fork.ts`): `BootstrapFork` is the
line buffer, `Serializer` the traversal that breaks cycles, and `Sharing` says on which graphs it
writes its marker.

What is nondeterministic in the original is a parameter or a choice here: what other tasks do and
when, whether a read, write, removal or rename succeeds, how a storage answers, how long a sleep
takes. Where an object updates its fields, the model is a class whose methods are proved to compute
functions of the old state; the theorems are about those functions.

## Where the code does less than one might expect

These are proved, each with the exact condition.

* A keyring text comes back if and only if its length is no multiple of the step and its last part
  does not end in the marker; any other text is continued by whatever stale entries lie behind it,
  or lost if there are none (`Keyring.StoredIsRead`, `Keyring.StoreThenRead`, `Keyring.FullTextIsLost`).
* A response dispatched before its call is in the table is lost, because the request is sent first,
  and the call waits in every continuation without another response (`RpcCalls.EarlyResponseHappens`,
  `RpcCalls.EarlyResponseIsLost`). A message with neither method nor id, such as an empty map,
  panics with the table locked, and no call is completed after it (`RpcCalls.EmptyMapIsHeadless`,
  `RpcCalls.HeadlessPoisons`). Both are part of the condition in
  `RpcCalls.CompletedExactlyByFirstResponse`.
* A line of source text that begins like the script's placeholder is not written back as it is
  (`ImportMerging.MergeComputedIff`): the script fails, or writes an import instead
  (`ImportMerging.PosingFails`, `ImportMerging.PosingDuplicates`). Merging twice changes a module for
  which a type is imported both by a type import and inline (`ImportMerging.SecondPassIdentityIff`,
  with an instance in `ImportMerging.ClashChanges`).
* Indentation is not recoverable where a tab follows an even number of spaces
  (`Indentation.IndentationKeptIff`, with an instance in `Indentation.TabAfterSpacesIsLost`).
* If the keyring and the file both refuse a credential, this process goes on with it while the next
  one may find the old one (`CredentialCache.StaleReturns`; `CredentialCache.ReopenedReads` says what
  the next one finds in every case).
* An entry created while the state file cannot be written stays on disk and is forgotten by the next
  process (`CacheRestarts.UnsavedIsForgotten`). `CacheRestarts.RestartStepIff` and
  `CacheRestarts.RestartAgreesIff` say for which operations and runs list and directories agree after
  a restart, and `CacheRestarts.UnlistedIff` which directories no eviction will ever reach.
* Replies made while one read is handled are only written afterwards. If they do not fit in the
  channel, with what is in it already, the connection stands still for good
  (`Backpressure.DrainCompletesIff`, `Backpressure.TooManyBlock`); nine synchronous requests in one
  read are enough (`Backpressure.EightRequestsFit`).
* Clearing a keyring with nothing to read fails (`Keyring.KeyringStorage.Clear`).
* The comment on the write loop says that it shuts down when the record is gone; in fact the record
  is never missing when the loop looks for it (`StreamEngine.RecordNeverMissing`).

## Model

| member | source | states |
|---|---|---|
| `MsgPack.HeadRoundTrip` | cli/src/msgpack_rpc.rs:28-30 | every marker with its length or number is read back, whatever follows it |
| `MsgPack.RoundTrip` | cli/src/msgpack_rpc.rs:28-34 | every value written is read back, using exactly its own bytes, whatever follows |
| `MsgPack.ParseStable` | cli/src/msgpack_rpc.rs:143-154 | more input never changes a verdict already reached |
| `MsgPack.ParseTrim` | cli/src/msgpack_rpc.rs:155-159 | a finished read looked only at the bytes it used |
| `MsgPack.StrictPrefixIncomplete` | cli/src/msgpack_rpc.rs:144-149 | any shorter prefix of what was used is incomplete, never an error |
| `WireFormat.VerdictMeans` | cli/src/msgpack_rpc.rs:143-154 | input is refused if and only if nothing that may follow makes it begin with a value, and waited for if and only if something does that was not there yet |
| `WireFormat.HeadBytes` | cli/src/msgpack_rpc.rs:28-30 | a head is the marker of the MessagePack format's table and its number in the fewest bytes the format has, most significant first |
| `WireFormat.ReservedIsRefused` | cli/src/msgpack_rpc.rs:151-154 | the reserved marker is an error, whatever follows |
| `Envelope.EnvelopeStreams` | cli/src/rpc.rs:641-647 | the envelope's reader decides nothing from no input, uses input, and is stable and local, as the decoder needs |
| `Envelope.EncodedIsWhole` | cli/src/rpc.rs:641-647 | a written value of the envelope's shape is exactly one envelope |
| `EnvelopeFields.FieldIs` | cli/src/rpc.rs:641-647 | a field is what stands at its only position, absent without one, and an error with two |
| `EnvelopeFields.EnvelopeIff` | cli/src/rpc.rs:641-647 | a value is read as an envelope if and only if it is a map with text keys whose three fields have, within their ranges, exactly what the envelope gets |
| `EnvelopeFields.RefusedIff` | cli/src/msgpack_rpc.rs:143-154 | bytes are refused if and only if they are no value or begin with a value that is no envelope |
| `Messages.NamesOnTheWire` | cli/src/rpc.rs:633-696 | the names of the fields, byte by byte |
| `Messages.MethodsOnTheWire` | cli/src/rpc.rs:633-635 | the names of the two methods that carry data, byte by byte |
| `Messages.RequestRead` | cli/src/rpc.rs:668-678 | a request or notification written is read with its id, method and parameters |
| `Messages.SuccessRead` | cli/src/rpc.rs:680-684 | a result written is read as a response without method and error, and its result is found |
| `Messages.ErrorRead` | cli/src/rpc.rs:686-696 | an error written is read as that error for the same request |
| `MsgPackCodec.MsgPackCodec.Decode` | cli/src/msgpack_rpc.rs:139-162 | takes exactly one object's bytes off the buffer if the deserializer reads one; leaves the contents alone and waits exactly if it needs more, and fails exactly if it refuses the data |
| `MsgPackCodec.MsgPackCodec.DecodeAll` | cli/src/msgpack_rpc.rs:71-97 | decodes until nothing more comes out: all leading objects, in order, ending where the deserializer needs more, or with an error where it refuses what is left |
| `MsgPackCodec.MsgPackCodec.ReadFrames` | cli/src/msgpack_rpc.rs:66-97 | draining after every read gives the objects, the leftover and the verdict of the whole input at once, and fails exactly where the deserializer refuses the leftover |
| `MsgPackCodec.DrainVerdict` | cli/src/msgpack_rpc.rs:143-154 | draining fails if and only if the deserializer refuses what is left, and stops without failing if and only if it needs more |
| `MsgPackCodec.DrainConcat` | cli/src/msgpack_rpc.rs:66-97 | draining, appending to the leftover and draining again is draining the concatenation |
| `MsgPackCodec.FragmentationIndependent` | cli/src/msgpack_rpc.rs:66-97 | at any cut the objects so far are a prefix of all, and the leftover with the remaining reads gives the rest |
| `MsgPackCodec.DrainConserves` | cli/src/msgpack_rpc.rs:155-159 | the objects' bytes followed by the leftover are the input |
| `MsgPackCodec.FramesStandAlone` | cli/src/msgpack_rpc.rs:155-159 | the bytes handed on with an object decode, on their own, to that object |
| `MsgPackCodec.PartialWaits` | cli/src/msgpack_rpc.rs:144-149 | a strict prefix of an object is never an error and never an object |
| `MsgPackCodec.DrainWhole` | cli/src/msgpack_rpc.rs:66-97 | encoded messages followed by part of one more come out as those messages in order, the part being left over |
| `Streams.StreamTable.Insert` | cli/src/rpc.rs:575-584 | a fresh record holding its write half; resting records stay empty and not ended |
| `Streams.StreamTable.Write` | cli/src/rpc.rs:564-573 | appends to the queue and hands the write half to a new loop if it was at rest; unknown streams are ignored |
| `Streams.StreamTable.Remove` | cli/src/rpc.rs:543-562 | drops a resting record and hands its write half out for shutdown, or marks a busy one as ended |
| `Streams.StreamTable.NextTurn` | cli/src/rpc.rs:603-621 | the loop's locked region: swap out the queue, park the write half, or close |
| `Streams.DrainBatch` | cli/src/rpc.rs:623-627 | the batch is written in order as far as it gets through; it fails exactly if not all of it did, and then drops the rest |
| `Streams.WriteLoop` | cli/src/rpc.rs:596-631 | undisturbed, the loop writes exactly what gets through of the whole queue and parks the write half, or shuts it down once if the record was ended or missing |
| `StreamEngine.StepKeeps` | cli/src/rpc.rs:531-631 | every event of every interleaving keeps the invariant on places, records, tasks and data |
| `StreamEngine.ExactlyOneOwner` | cli/src/rpc.rs:531-631 | in every reachable state each write half is in exactly one place: record, loop, remover, or shut down |
| `StreamEngine.OneLoopPerStream` | cli/src/rpc.rs:564-573 | a stream never has two write loops |
| `StreamEngine.RecordNeverMissing` | cli/src/rpc.rs:603-608 | a loop at the lock always finds its record, without a write half |
| `StreamEngine.RestingRecords` | cli/src/rpc.rs:531-535 | a record holding its write half is empty and not ended; any other has a running loop, and conversely |
| `StreamEngine.DeliveryInProgress` | cli/src/rpc.rs:601-628 | finished items, the rest of the batch and the queue are the buffers accepted, and the sink's bytes are those of the finished items and the part of the next one |
| `StreamEngine.DeliveryAtRest` | cli/src/rpc.rs:601-628 | with no loop running everything accepted has been delivered |
| `StreamEngine.SinkHoldsPrefix` | cli/src/rpc.rs:564-628 | at every moment the sink holds a prefix of what was accepted, byte by byte |
| `StreamEngine.ShutdownOnce` | cli/src/rpc.rs:543-562 | at most one shutdown per write half, after all accepted data and with the record gone |
| `StreamEngine.ClosedForever` | cli/src/rpc.rs:543-630 | after the shutdown nothing is delivered or accepted in any run |
| `StreamEngine.LoopProceedsIff` | cli/src/rpc.rs:623-627 | a loop can take a step if and only if it is not in the middle of an item with 8192 bytes unread in its pipe, and then the callback can read |
| `StreamEngine.PipeBounded` | cli/src/rpc.rs:249 | no pipe ever holds more than 8192 bytes, in any run |
| `StreamEngine.EndingIsBounded` | cli/src/rpc.rs:610-630 | once a stream is ended and no more is written, its loop takes at most a computed number of steps, can step unless the pipe is full, and goes only by shutting down |
| `StreamFailures.ItemsInOrder` | cli/src/rpc.rs:564-628 | whatever fails, in every reachable state the items finished for a stream are some of those accepted, in order and none twice |
| `StreamFailures.FailLoses` | cli/src/rpc.rs:623-627 | a failed write loses the rest of the batch at hand and nothing of the queue, and the loop goes back to the lock |
| `StreamFailures.OthersKeepWhole` | cli/src/rpc.rs:543-630 | every other event loses nothing, and only an accepted write adds an item |
| `StreamWork.StepWork` | cli/src/rpc.rs:543-631 | every step of a loop or remover and every read of a callback uses up work; a write adds twice its length and eight, a removal one, a registration nothing |
| `Inbound.AlignedStep` | cli/src/msgpack_rpc.rs:66-97 | every event leaves the decoder aligned with the peer's messages |
| `Inbound.RunKeeps` | cli/src/msgpack_rpc.rs:66-97 | over any run the streams have seen exactly the actions of the messages dispatched so far |
| `Inbound.EndToEnd` | cli/src/rpc.rs:275-291 | for any reads and any interleaving the sink holds a prefix of the concatenated segments, and all of them when shut down |
| `Inbound.EndToEndComplete` | cli/src/rpc.rs:275-291 | a run with nothing left to do has shut the sink of an ended stream down once, with all its data |
| `Inbound.NotStuck` | cli/src/msgpack_rpc.rs:66-97 | a read, a dispatch, a removal or a task step is possible if and only if not all that is left is loops waiting for callbacks to read from full pipes, and those can |
| `Inbound.EveryRunDelivers` | cli/src/msgpack_rpc.rs:66-97 | in every run the steps other than registrations are bounded by a number known at its start, and once nothing else can happen an ended stream's sink is shut with all its data |
| `StreamMethods.StreamDataRead` | cli/src/rpc.rs:649-661 | a data message written by the peer is read as that data for that stream |
| `StreamMethods.StreamEndedRead` | cli/src/rpc.rs:663-666 | an end message written by the peer is read as the end of that stream |
| `StreamMethods.DataIff` | cli/src/rpc.rs:649-654 | a message is data for a stream if and only if it names the method and has the stream's number and the bytes, as bytes, text or a list of numbers |
| `StreamMethods.EndedIff` | cli/src/rpc.rs:663-666 | a message is the end of a stream if and only if it names the method and has the stream's number |
| `StreamMethods.TransferArrives` | cli/src/rpc.rs:275-291 | segments sent on a stream and then ended arrive: a prefix always, all at shutdown, and shutdown once nothing is left to do, after boundedly many steps |
| `RpcCalls.PendingCalls.SendCall` | cli/src/rpc.rs:348-359 | the first half of a call: the next id is used up and the request on its way, or the call is over because the channel is closed; nothing else changes |
| `RpcCalls.PendingCalls.EnterCall` | cli/src/rpc.rs:361-378 | the second half: the call waits from now on, unless the table is poisoned; nothing else changes |
| `RpcCalls.PendingCalls.DispatchResponse` | cli/src/rpc.rs:439-449 | completes and removes the call with that id with its result, its error or an error with code 0, ignores other ids, and poisons the table without an id |
| `RpcCalls.IdsAreFresh` | cli/src/rpc.rs:397-400 | calls are entered once, only after being sent, under ids handed out before |
| `RpcCalls.EnteredWasSent` | cli/src/rpc.rs:348-361 | ids number the calls in the order of sending, and only a call the channel took is ever entered |
| `RpcCalls.RunIsDescribed` | cli/src/rpc.rs:342-381 | what waits and what was completed, read off the history of the run alone |
| `RpcCalls.CompletedExactlyByFirstResponse` | cli/src/rpc.rs:361-378 | a call is completed at most once, exactly if a response with its id was dispatched after it was entered in a sound table; it resolves with the result of the first such response, is rejected with its error, or with code 0 if the result cannot be read |
| `RpcCalls.ResultArrives` | cli/src/rpc.rs:361-376 | over any run, a result the peer writes for a waiting call reaches its caller as it reads it, or as an error with code 0 if it cannot |
| `RpcCalls.ErrorArrives` | cli/src/rpc.rs:439-443 | an error the peer writes for a waiting call reaches its caller as it is |
| `RpcCalls.MessagesAnswer` | cli/src/rpc.rs:439-449 | such messages are responses to the call of that id |
| `RpcCalls.RequestsDoNot` | cli/src/rpc.rs:420-438 | a request or notification answers no call |
| `RpcCalls.UnansweredWaits` | cli/src/rpc.rs:439-449 | a call with no response after its entry has no result, and still waits in a sound table, however the run goes on |
| `RpcCalls.EarlyResponseHappens` | cli/src/rpc.rs:356-378 | a run in which the response comes between the sending and the entry of its call |
| `RpcCalls.EarlyResponseIsLost` | cli/src/rpc.rs:356-378 | in every continuation of it without another response the call waits without result |
| `RpcCalls.EmptyMapIsHeadless` | cli/src/rpc.rs:641-647 | one byte, an empty map, is read as a message with neither method, id nor error |
| `RpcCalls.HeadlessPoisons` | cli/src/rpc.rs:444-449 | after such a message a response to a call entered before it completes nothing |
| `RpcServer.StepKeeps` | cli/src/rpc.rs:420-524 | every event keeps the invariant on replies, futures, registration, relays and wire order |
| `RpcServer.OneReplyPerRequest` | cli/src/rpc.rs:101-272 | at most one reply, with the request's id and exactly the body its path prescribes, none to a notification; exactly one once it has finished and the channel is open |
| `RpcServer.AnnouncedFirst` | cli/src/rpc.rs:453-475 | streams are announced once per request, under its id or 0 if it has none, all of them and none twice, before any message about them and before its reply |
| `RpcServer.AnnouncesAll` | cli/src/rpc.rs:241-251 | the announcement carries exactly the ids handed out for the streams of the request, in their order |
| `RpcServer.RegistrationEndsRunning` | cli/src/msgpack_rpc.rs:84-95 | a registration ends with the future of its request running, after opening all streams, or at once if the announcement could not be sent |
| `RpcServer.EndComesLast` | cli/src/rpc.rs:511-521 | nothing about a stream follows its end |
| `RpcServer.SegmentsBounded` | cli/src/rpc.rs:484-506 | data segments have between 1 and 4096 bytes |
| `RpcServer.RelayedIsRead` | cli/src/rpc.rs:484-521 | what was sent for a stream is what was read from it, save the segment in hand; on an open channel the end has been sent if and only if the relay task is gone, and then all it read was sent before |
| `RpcServer.AnnouncedOpenKeeps` | cli/src/rpc.rs:453-480 | every announced stream is open or about to be opened by the registration in progress |
| `RpcServer.Channel.Send` | cli/src/rpc.rs:489-506 | appends to the channel, or fails when the other end is gone |
| `RpcServer.Relay` | cli/src/rpc.rs:484-521 | one data message per non-empty read up to the first empty one, then the end |
| `Connection.StepKeeps` | cli/src/msgpack_rpc.rs:85-95 | registration and inbound delivery together keep the invariant that handled messages have reached their streams |
| `Connection.DataFindsRecord` | cli/src/msgpack_rpc.rs:85-95 | data handled for an announced stream finds its record, not ended and not about to be removed, because the read loop waits for the registration |
| `Connection.SessionDelivers` | cli/src/rpc.rs:453-524 | from the start of a connection, a stream's sink holds a prefix of what the peer sends for it, and all of it at shutdown |
| `Connection.SessionCompletes` | cli/src/rpc.rs:453-524 | with nothing left to do inbound, a stream the peer ended has been opened and shut down once |
| `Connection.SessionEnds` | cli/src/msgpack_rpc.rs:66-97 | from the start of a connection the inbound steps are bounded by the reads and the messages, and once nothing inbound and no registration can go on, every ended stream has been shut with all its data |
| `RpcSession.MessageRead` | cli/src/rpc.rs:648-678 | data, ends and other requests written by the peer are each read as what they are |
| `RpcSession.StreamArrives` | cli/src/rpc.rs:275-291 | the same for a peer that mixes real messages of all kinds, cut into reads of any size |
| `Backpressure.BlockedIffDead` | cli/src/msgpack_rpc.rs:67-109 | the read loop waits for room in a full channel if and only if nothing at all can happen on the connection |
| `Backpressure.DrainCompletesIff` | cli/src/msgpack_rpc.rs:71-97 | all messages of one read can be handled, with so many sent by tasks meanwhile, if and only if those in the channel, the loop's own and the tasks' fit in it together |
| `Backpressure.TooManyBlock` | cli/src/msgpack_rpc.rs:71-97 | with more to send than there is room for, the loop never returns and the connection is dead within a bounded number of steps |
| `Backpressure.EightRequestsFit` | cli/src/msgpack_rpc.rs:59-75 | synchronous requests in one read of an idle connection can be handled if and only if there are at most eight |
| `Backpressure.InlineIff` | cli/src/msgpack_rpc.rs:72-95 | handling a request puts one message on the channel from the read loop itself if and only if it is answered during dispatch or opens streams, and none otherwise |
| `Keyring.ChunksBounded` | cli/src/auth.rs:351-362 | no part is empty or longer than the step and the marker |
| `Keyring.ChunkAt` | cli/src/auth.rs:351-362 | the parts are as many as begin inside the text; each is the next step bytes followed by the marker, or what is left of the text |
| `Keyring.StoreFits` | cli/src/auth.rs:227-232 | every entry a store has changed, also one that failed half-way, is not empty and within the limit |
| `Keyring.ReadBack` | cli/src/auth.rs:327-371 | a readable text stored from any entry on is read back from there, over any old entries |
| `Keyring.StoredIsRead` | cli/src/auth.rs:327-371 | for all texts and all old entries, exactly what reading returns after storing |
| `Keyring.StoreThenRead` | cli/src/auth.rs:327-371 | store and read round-trips for all old values if and only if the last part is partial and does not end in the marker |
| `Keyring.FullTextIsLost` | cli/src/auth.rs:356-360 | a text of exactly one full part does not come back |
| `Keyring.KeyringStorage.NextEntry` | cli/src/auth.rs:312-324 | the handle at an index stands for the entry of that number and is created when it is the next one |
| `Keyring.KeyringStorage.Read` | cli/src/auth.rs:327-347 | returns the joined text or none, and fails exactly if an entry it looks at cannot be read; it knows a handle for every entry looked at |
| `Keyring.KeyringStorage.Store` | cli/src/auth.rs:349-371 | writes the parts from entry 0 on, none longer than 1024 or 131072 bytes; it fails exactly at the first entry that cannot be written, with exactly the parts before it written |
| `Keyring.KeyringStorage.Clear` | cli/src/auth.rs:373-383 | deletes every entry known after reading and succeeds exactly if all are there and can be deleted, and then the next read finds nothing; else it stops at the first that is missing or stuck; a keyring that works is cleared if and only if there is a text to read and no entry with a known handle has gone |
| `Keyring.ClearableIff` | cli/src/auth.rs:373-383 | every entry to be deleted is there if and only if reading returns a text and the entries known before are there |
| `CredentialCache.ThreadKeyring.ThreadOp` | cli/src/auth.rs:249-281 | the keyring comes back with the answer and is gone for good after a timeout |
| `CredentialCache.Auth.WithStorage` | cli/src/auth.rs:439-488 | opens once; the file without fallback if the user asks for it, it exists, or the keyring fails or times out on the first read, else the keyring with what it held as the first read |
| `CredentialCache.Auth.GetCurrentCredential` | cli/src/auth.rs:506-512 | returns the cached credential, which on opening is what the storage opened holds, and changes nothing later |
| `CredentialCache.Auth.Attempted` | cli/src/auth.rs:284-296 | the storage in use stores or clears: the keyring in its thread, or the file |
| `CredentialCache.Auth.StoreCredentials` | cli/src/auth.rs:614-636 | a failed store switches to the fallback if there is one and stores there; the credential is cached in any case; keyring and file hold what the attempts left |
| `CredentialCache.Auth.ClearCredentials` | cli/src/auth.rs:515-521 | the cache is cleared only if the storage was |
| `CredentialCache.LastDecisionCounts` | cli/src/auth.rs:506-636 | over any operations the credential is the last stored one, none after a later successful clear, else the first read |
| `CredentialCache.SwitchesOnFailedStore` | cli/src/auth.rs:614-636 | the keyring is given up exactly when a store on it fails |
| `CredentialCache.NeverSwitchesBack` | cli/src/auth.rs:439-488 | over any run, once on the file always on the file, so there is at most one switch |
| `CredentialCache.PresentIff` | cli/src/auth.rs:249-281 | while in use, the keyring is there exactly if no operation has timed out |
| `CredentialCache.TimeoutIsFinal` | cli/src/auth.rs:249-281 | an operation on the keyring succeeds exactly if the keyring does it and none before timed out |
| `CredentialCache.ReopenedAfter` | cli/src/auth.rs:439-488 | exactly what a new process reads after a store or clear, persisted or not |
| `CredentialCache.ReopenedReads` | cli/src/auth.rs:439-488 | after any run a new process reads what this one reports if the last store or clear was persisted, and otherwise exactly what that one left over |
| `CredentialCache.StaleReturns` | cli/src/auth.rs:614-636 | both stores fail: this process reports the new credential and the next one the old |
| `DevicePolling.PollDeviceCode` | cli/src/auth.rs:815-834 | the polls of one device code until granted, or until it has expired when a poll is answered: spaced by the interval in force, and at most ceil(expires_in / 5) |
| `DevicePolling.PollUntil` | cli/src/auth.rs:815-834 | the loop: the times of its polls, which go on while the code has not expired at the check and no poll was granted |
| `DevicePolling.PollsSpaced` | cli/src/auth.rs:815-829 | each poll comes exactly five seconds after the one before, and five more per request so far to slow down, plus what the sleep overran and the poll took |
| `DevicePolling.PollsBounded` | cli/src/auth.rs:797-834 | at most ceil(expires_in / 5) polls |
| `DevicePolling.SlowedPollsBounded` | cli/src/auth.rs:815-829 | if every reply is a slow-down, an n-th poll implies 5 n (n - 1) / 2 < expires_in |
| `PersistedState.Container.LoadOrGet` | cli/src/state.rs:46-59 | the memory copy if there is one, else the file's value or the default |
| `PersistedState.Container.Save` | cli/src/state.rs:61-86 | the memory copy changes even when the write fails |
| `DownloadCache.StepAgrees` | cli/src/download_cache.rs:52-139 | every operation, whatever fails, keeps list and directories in agreement; a new entry created is present and first |
| `DownloadCache.RunAgrees` | cli/src/download_cache.rs:52-139 | after any run every completed directory is listed, no name twice, at most five names plus one per failed eviction |
| `DownloadCache.DirGoesWithName` | cli/src/download_cache.rs:119-139 | whatever fails, an operation takes at most one directory off the disk, the deleted one or, past five names, another than the one touched, and its name is off the list |
| `DownloadCache.DirsAreListed` | cli/src/download_cache.rs:52-139 | as long as removals and renames succeed the directories are exactly those of the listed names, at most five |
| `CacheRestarts.FileHolds` | cli/src/state.rs:61-86 | after any run the state file holds the list as of the last operation that changed it, nothing readable if that one broke off, and does not exist if there was none |
| `CacheRestarts.RestartStepIff` | cli/src/download_cache.rs:52-139 | one operation keeps the agreement across a restart if and only if it writes nothing, its write succeeds, the file stays unopened and no entry was completed that the file does not name, or the write breaks off and no directory is left |
| `CacheRestarts.RestartAgreesIff` | cli/src/state.rs:46-59 | after a run and a restart list and directories agree if and only if every entry completed since the last successful write, and still there, was listed then; if the last write broke off or there was none, if and only if no directory is left |
| `CacheRestarts.UnsavedIsForgotten` | cli/src/download_cache.rs:78-117 | an entry created while the file cannot be written is on disk and not in the list of the next process |
| `CacheRestarts.LifeIsSound` | cli/src/download_cache.rs:52-139 | over any number of processes list and file have no duplicates and at most five names plus one per failed eviction, and the file never names a directory the list does not |
| `CacheRestarts.UnlistedIff` | cli/src/download_cache.rs:119-139 | over any number of processes a directory is off the list if and only if some restart found it missing from the file and since then it was neither asked for nor deleted |
| `DownloadCache.ListIsLru` | cli/src/download_cache.rs:119-139 | after any touches and deletes the list is what a cache evicting the least recent of at most five names holds, most recent first |
| `DownloadCache.RunIsLru` | cli/src/download_cache.rs:52-139 | so is the cache's own list after any operations whose removals succeed |
| `DownloadCache.TouchesOnly` | cli/src/download_cache.rs:119-139 | after touches only, the list is the first five distinct names of the reversed history |
| `DownloadCache.DownloadCache.TouchEntry` | cli/src/download_cache.rs:119-139 | moves the name to the front, evicts the last name if its directory can go and no other directory, writes the list to the file as far as that goes, and reports whether it did |
| `DownloadCache.DownloadCache.CheckExists` | cli/src/download_cache.rs:52-60 | reports the directory and touches its name if it is there |
| `DownloadCache.DownloadCache.DeleteEntry` | cli/src/download_cache.rs:63-72 | removes directory and name, or nothing if the directory cannot be removed |
| `DownloadCache.DownloadCache.CreateEntry` | cli/src/download_cache.rs:78-117 | succeeds exactly if the entry existed or was built and renamed within 21 attempts, and then it is present and first |
| `DownloadCache.RemoveFirst` | cli/src/download_cache.rs:121-123 | removes the first occurrence by position |
| `DownloadCache.RetainOthers` | cli/src/download_cache.rs:69-71 | keeps all other names in order |
| `ImportMerging.CollectImports` | scripts/sync-agent-host-protocol.ts:165-196 | the table of names per module and the lines kept |
| `ImportMerging.MergeDuplicateImports` | scripts/sync-agent-host-protocol.ts:165-215 | expands the kept lines, failing on a placeholder without a table entry |
| `ImportMerging.MergeComputedIff` | scripts/sync-agent-host-protocol.ts:165-215 | the script computes the merge if and only if no other line begins like a placeholder |
| `ImportMerging.PosingFails` | scripts/sync-agent-host-protocol.ts:199-201 | a line posing as the placeholder of a module without imports makes the script fail |
| `ImportMerging.PosingDuplicates` | scripts/sync-agent-host-protocol.ts:199-212 | a line posing as the placeholder of an imported module becomes a second import of it |
| `ImportMerging.MergeKeepsPlaces` | scripts/sync-agent-host-protocol.ts:179-195 | other lines keep content and order, and a module's import is where it first was |
| `ImportMerging.MergeIsUnique` | scripts/sync-agent-host-protocol.ts:198-215 | no module is imported by two lines |
| `ImportMerging.MergeKeepsNames` | scripts/sync-agent-host-protocol.ts:202-212 | every module's sets of names imported as types and as values are preserved |
| `ImportMerging.MergeKeepsOrder` | scripts/sync-agent-host-protocol.ts:202-212 | a module's line is a type import if it has no values; else its values come first and its types inline behind them, each group in the order of first occurrence |
| `Common.DedupInOrder` | scripts/sync-agent-host-protocol.ts:202-203 | a list made a set keeps every element once, in the order of first occurrence |
| `ImportMerging.SecondPassIdentityIff` | scripts/sync-agent-host-protocol.ts:198-215 | a second pass is the identity if and only if no type of a mixed import is also written inline |
| `ImportMerging.SecondRunIdentityIff` | scripts/sync-agent-host-protocol.ts:165-215 | the script run on its own output is the identity under the same condition |
| `ImportMerging.ClashChanges` | scripts/sync-agent-host-protocol.ts:205-207 | a type imported both ways: listed twice after the first pass, once after the second |
| `FormatterEdits.ApplyEdits` | scripts/sync-agent-host-protocol.ts:55-60 | applies the edits from last to first |
| `FormatterEdits.ReverseOrderIsSimultaneous` | scripts/sync-agent-host-protocol.ts:55-60 | for sorted edits that do not overlap, insertions at one offset included, that is the substitution made at once on the original |
| `Indentation.IndentationKeptIff` | scripts/sync-agent-host-protocol.ts:139-151 | turning tabs back into spaces restores a line, except exactly where a tab follows an even number of spaces |
| `Indentation.TabAfterSpacesIsLost` | scripts/sync-agent-host-protocol.ts:146-149 | two spaces and a tab become two tabs, and those four spaces |
| `Indentation.ConvertTwice` | scripts/sync-agent-host-protocol.ts:139-151 | converting a second time changes nothing |
| `BootstrapFork.WrappedStream.Write` | src/bootstrap-fork.ts:122-132 | one write: complete lines go out, the rest stays, at most 1 MiB and without newline |
| `BootstrapFork.NothingLost` | src/bootstrap-fork.ts:122-132 | pieces with their separators followed by the buffer are the whole input |
| `BootstrapFork.BufferIsTail` | src/bootstrap-fork.ts:122-132 | without overflow the buffer is what follows the last newline of all input |
| `BootstrapFork.ChunkingIrrelevant` | src/bootstrap-fork.ts:122-132 | two ways of chunking the same input leave the same buffer and have emitted the same text |
| `Serializer.Replacer.Replace` | src/bootstrap-fork.ts:52-64 | an object is expanded exactly if it has not been seen, and is then seen |
| `Serializer.Replacer.Stringify` | src/bootstrap-fork.ts:52-65 | the traversal terminates on any finite graph and writes the tree with markers |
| `Serializer.SeenIsExpanded` | src/bootstrap-fork.ts:52-65 | what is newly seen is what was expanded, in order and never twice |
| `Serializer.ExpandedOnce` | src/bootstrap-fork.ts:52-65 | no object is expanded twice, so none inside itself |
| `Serializer.UnsharedUnchanged` | src/bootstrap-fork.ts:52-65 | a value whose full tree names no object twice is written unchanged |
| `Serializer.MarkerFreeIffUnshared` | src/bootstrap-fork.ts:52-65 | the marker is missing if and only if there is such a tree, and then that tree is written |
| `Sharing.ExpandedSet` | src/bootstrap-fork.ts:52-65 | exactly the objects that can be reached are expanded, each once |
| `Sharing.WrittenFits` | src/bootstrap-fork.ts:52-65 | what is written has the shape of the graph: primitives and properties as they are, markers only in place of objects |
| `Sharing.MarkerFreeIffNotShared` | src/bootstrap-fork.ts:52-65 | an object is written without any marker if and only if no object it reaches is referred to from two slots and none refers back to it |

## Left out

- Sockets, HTTP, timers, file systems and the scheduler: they are events, outcomes given with an operation, or a clock that moves forward.
- The end of the incoming bytes: the input is a finite sequence of reads. The outgoing channel is bounded in `Backpressure` and unbounded elsewhere, so progress stated elsewhere is for connections that do not block there.
- Write loops, relay tasks and futures inside the transition systems are step-by-step states, not loops, because other tasks run between their steps; `Streams.WriteLoop` and `RpcServer.Relay` are those loops on their own.
- Message ids wrap around in the original; here they are unbounded and fresh.
- `StreamEngine.SinkHoldsPrefix`, like all claims on delivered bytes, is about sinks that have not failed; what is left of the items after a failed write is `StreamFailures.ItemsInOrder`.
- `Inbound.EndToEnd` starts with the stream just registered, and like `Connection.SessionDelivers` is about a peer that sends no data after the end it sent; `Connection.SessionDelivers` is about one that speaks of a stream only once it was announced.
- `Inbound.EveryRunDelivers`: no fairness of the scheduler is assumed; a run is at rest only when the callbacks have read what they can, so one that stops reading leaves its stream waiting (`StreamEngine.LoopProceedsIff`).
- `Keyring.Faults`: which entries fail stays the same during one operation, which uses every entry at most once; `Streams.WriteHalf.limit` is how much the far end takes before it goes away, after which nothing gets through.
- `MsgPack.Parse`: whether texts are UTF-8 and the limit on nesting are not modelled, and the bits of floats are not interpreted.
- `Envelope.Interpret`: a map of the wrong shape is refused once all of it has arrived, not at the first wrong byte; structs written as arrays or with numbered keys are not modelled.
- The JSON variant of the connection: its line reader belongs to a library.
- Encryption and sealing: a sealed text is a sequence of bytes, cut anywhere.
- `CredentialCache.Opened`: the cached first read is never an error, because reading the file never fails.
- `CredentialCache.Honest`: the keyring gives back what it accepted, which for a text of the wrong length it does not (`Keyring.StoreThenRead`); what an operation that timed out does to the keyring later than the next operation is not modelled.
- Token refresh, provider prompts, a new device code after one has expired, and the requests themselves.
- `DownloadCache.Run`: one process at a time, one operation at a time, starting without a state file; a callback that uses the cache while it builds an entry, and entries named like the state file or a staging directory, are not modelled.
- `ImportMerging.Line`: lines are already recognised as type import, value import or other; the regular expressions and the collapsing of imports over several lines are not modelled.
- `FormatterEdits.ReverseOrderIsSimultaneous`: edits that overlap or are out of order, which the formatter does not return.
- `Indentation.ConvertLine`: works on one line; splitting the file at newlines and joining it again is not modelled. Stripping the old header is left out as well.
- `Serializer.Write`: the limit on the length of the result, errors and undefined values among the arguments, dates, regular expressions and objects with their own conversion to JSON.
- `BootstrapFork.Written`: chunks are already decoded; passing them on to the original stream is not modelled.
- The lock of the single CLI instance rests on a file lock that is not part of this model.
