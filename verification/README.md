# rdmalib: a model of its protocol and its proofs

rdmalib shares memory regions over RDMA. A provider keeps a catalog of regions and, per reader
group, a table of registrations; a reader greets it over a small framed TCP protocol, joins a
group, connects over RDMA, receives the catalog and the group's tuples, and then reads and writes
the regions with bounds-checked one-sided operations. The library's multi-node tests meet at a
barrier built on logical clocks. This project models those parts and proves what they are for.

Verify everything with `dafny verify dfyconfig.toml`.

## The parts

| file | what it models |
|---|---|
| Common | machine integers, `Option`, `Result` |
| Codec, Wire, Unicode, Cursor, Framing | the wire format as functions on bytes, where every field stands, what its strings are, the loops that compute it, many frames on one stream |
| Cache, Reader | the reader's cache as a function of its ingests, and the object that `update` mutates |
| Access | saturating bounds checks, byte and typed accesses, the remote buffer as bytes and as elements |
| Completion | work-request ids and completions against an adversarial device |
| Registry | the provider's tables and their operations, uninterrupted |
| Interleaving, ProviderRuns, Settling, Overlap, Snapshots, Lifetime, Releases | the same operations as atomic steps of application, service and session threads, through to the provider's drop |
| Conversation | both ends of one metadata channel, message by message, with failures |
| Rendezvous, Pairing | queued readers, the handshake thread and the listener's event queue, and what they come to in the provider's tables |
| EndToEnd | registration to lookup to access, over the wire |
| Barrier, Departure, Stranded, Bypass | the barrier as a state machine over N nodes, what a leaver has told its peers, and exactly when it has not |
| Synch, SynchRuns | one node's own code, and the state machine as a refinement of it |

Protocols are state machines: a step is one atomic action of one thread (one lock held, one
message sent or received, one device call), a run is any interleaving of steps, and every theorem
about a run holds for all of them. Clocks, device answers, failures and what the network carries are
parameters of the steps, so a run picks them freely. Objects the source mutates are classes whose
methods are proved against the functions that the theorems are about.

## Where the code and its comments part ways

The model follows the code; each of these has its own theorem.

* The barrier comment (tests/common/mod.rs:182-191) says no peer ever still needs to hear from a
  node that has left. A clock recorded one round early breaks this from the second round on, even
  when every reply is read (`Stranded.EarlyClockStrandsPeer`). From any point of any reliable run, for
  any number of nodes, a node's next call can return with a given peer untold if and only if it
  already knows that peer at that round (`Bypass.UntoldIffEarly`), and with no peer told if and only
  if it so knows them all (`Stranded.UntoldIffAllEarly`). What holds run by run is in
  `Departure.LeaverHasTold`, and unconditionally for the first round in `Departure.FirstRoundTellsAll`.
* "Repeated requests return the same tuple" (src/providers.rs:402-403) fails for overlapping first
  requests (`Overlap.AnsweredThenDeregistered`, `Settling.OverlapDeregisters`). From a state with the
  pair in the table it holds, whatever the threads do, if and only if no call for the pair is between
  its miss and its answer (`Settling.SettledIffNoneAsking`).
* `MAX_FRAME` is documented as header included (src/meta.rs:31-34), but the check bounds type byte
  plus payload (src/meta.rs:236): frames of up to four bytes more are read (`Codec.FrameSize`,
  `Codec.HeaderIsNotCounted`).
* A transfer's length is narrowed to 32 bits on its way to the device (src/rdma/verbs.rs:858);
  `Access.WholeTransferIffNarrow` says which transfers are whole.
* The rendezvous pairs connection requests with sessions by order alone. A handshake may fail over the
  request it has taken, over a connection that takes its undelivered events with it, or once its
  reader is gone and has left nothing behind (`Rendezvous.Orderly`): as long as none fails otherwise,
  every reader gets its own connection (`Rendezvous.AcceptsItsOwnReader`). The condition is exact: at any
  point of such a run a failure after a Welcome is one of the harmless ones if and only if no
  continuation, itself free of other failures, completes a handshake for one group with the connection
  of a reader that asked for another (`Rendezvous.FailureIsSafeIffHarmless`).

## Model

| member | source | states |
|---|---|---|
| Codec.RoundTripIffInCap | src/meta.rs:120-242 | for every message, reading its encoding (whatever follows) returns it if and only if type byte plus payload are at most 2^20 bytes |
| Codec.ReadEncoded | src/meta.rs:232-242 | an in-cap frame is read back exactly and leaves exactly the bytes after it |
| Codec.EncodeShape | src/meta.rs:120-165 | the length word, type byte and payload of a frame sit where the reader looks for them, the length computed in 32 bits |
| Codec.DecodePrinted | src/meta.rs:174-229 | every in-cap message decodes from its own type byte and payload |
| Codec.DecodeIsCanonical | src/meta.rs:174-229 | every payload that is accepted re-encodes to the same type byte and payload |
| Codec.DecodeIsInjective | src/meta.rs:174-229 | no two payloads of a type decode to the same message |
| Codec.ReadRegion | src/meta.rs:186-207 | a printed region descriptor parses back, whatever follows it |
| Codec.PrintRegion | src/meta.rs:186-207 | what parses as a region descriptor is exactly its printing, of at least 28 bytes |
| Codec.ReadStr | src/meta.rs:323-330 | a printed string parses back, its bytes being valid UTF-8 and its length below 2^32 |
| Codec.PrintStr | src/meta.rs:323-330 | what parses as a string is its length prefix and exactly that many bytes |
| Codec.RegionsNeedBytes | src/meta.rs:186-200 | for any claimed count and any bytes, the descriptors completed before the first failure take at least 28 bytes each, and all of them are completed iff the list parses |
| Codec.TuplesNeedBytes | src/meta.rs:201-217 | the same for tuples of 24 bytes |
| Codec.CompletedIsBounded | src/meta.rs:174-229 | decoding any payload completes at most payload/28 descriptors or payload/24 tuples before it succeeds or fails, and on success exactly the list |
| Codec.FrameSize | src/meta.rs:31-34 | a frame is read iff it has at most four bytes more than the limit: its length word is not counted |
| Codec.HeaderIsNotCounted | src/meta.rs:232-242 | a frame longer than the documented limit, header included, that is read all the same |
| Codec.ValueOfLittleEndian | src/meta.rs:341-351 | printing an integer little-endian loses nothing that fits the width |
| Codec.LittleEndianOfValue | src/meta.rs:306-321 | every byte string is the printing of the integer read from it |
| Unicode.ValidIffScalars | src/meta.rs:323-330 | a byte string is accepted as UTF-8 iff it is the encoding, by division into one to four bytes, of some list of Unicode scalar values: no surrogate, overlong form or stray byte gets in, and nothing else is kept out |
| Unicode.ScalarsAreUnique | src/meta.rs:323-330 | that list of scalar values is unique |
| Wire.FrameLayout | src/meta.rs:120-165 | a frame's length word counts all that follows it, in 32 bits, its type byte is 1 to 6 by kind of message, and greeting, group, count and list stand at fixed positions, least significant byte first |
| Wire.RegionLayout | src/meta.rs:139-146 | id, name, size, element size, alignment and type of a descriptor, each at its byte position |
| Wire.TupleLayout | src/meta.rs:151-156 | id, address, size and key of a tuple, each at its byte position |
| Wire.RegionsInOrder | src/meta.rs:136-147 | descriptors stand one after the other in list order |
| Wire.TuplesInOrder | src/meta.rs:148-158 | the i-th tuple stands at byte 24 i |
| Wire.FramesAreEncodings | src/meta.rs:232-242 | a stream reads as a message, leaving a rest, iff it is that message's in-cap frame followed by that rest |
| Wire.FrameRefusals | src/meta.rs:232-242 | a stream ends early iff its header is cut, or its length word is in range and more than what follows; it is refused iff the word is out of range or the whole frame is no message's |
| Cursor.Buffer.PutInt | src/meta.rs:341-351 | appends exactly the little-endian bytes |
| Cursor.Buffer.PutStr | src/meta.rs:353-356 | appends the narrowed length and the bytes |
| Cursor.Buffer.PutRegion | src/meta.rs:139-146 | appends one descriptor, field by field in wire order |
| Cursor.Buffer.PutTuple | src/meta.rs:151-156 | appends one tuple, field by field in wire order |
| Cursor.Buffer.PutRegionList | src/meta.rs:136-147 | the loop appends the whole catalog in order |
| Cursor.Buffer.PutTupleList | src/meta.rs:148-158 | the loop appends all tuples in order |
| Cursor.EncodePayload | src/meta.rs:120-159 | the match computes type byte and payload of every message |
| Cursor.EncodeMessage | src/meta.rs:120-165 | `encode` computes the frame |
| Cursor.Reader.Take | src/meta.rs:297-304 | takes exactly the next bytes or nothing; the position never passes the end, so the bounds subtraction never goes below zero |
| Cursor.Reader.U16 | src/meta.rs:306-309 | advances exactly as the parser of two bytes |
| Cursor.Reader.U32 | src/meta.rs:311-314 | advances exactly as the parser of four bytes |
| Cursor.Reader.U64 | src/meta.rs:316-321 | advances exactly as the parser of eight bytes |
| Cursor.Reader.Str | src/meta.rs:323-330 | a claimed length beyond the end, or bytes that are no encoding of scalar values, are refused; all others are taken |
| Cursor.Reader.Region | src/meta.rs:189-198 | one element of the catalog loop, refused at the first field that does not parse |
| Cursor.Reader.Tuple | src/meta.rs:206-215 | one element of the tuple loop |
| Cursor.Reader.RegionList | src/meta.rs:186-200 | the catalog loop agrees with the parser; on success and on failure alike it has completed exactly the descriptors that parse before the first that does not, each of at least 28 bytes, whatever count was claimed |
| Cursor.Reader.TupleList | src/meta.rs:201-217 | the same for tuples, each of 24 bytes |
| Cursor.DecodePayload | src/meta.rs:174-229 | `decode` computes the parser and requires the payload used up; the elements it completed, whether it then succeeds or fails, are exactly those the parser can complete, at most payload/28 or payload/24, and on success the list's |
| Cursor.Stream.ReadMessage | src/meta.rs:232-242 | `read_frame` computes the frame reader and leaves the stream right behind the frame |
| Framing.ReadStream | src/meta.rs:232-248 | reading the concatenated encodings of any list of in-cap messages returns that list, then end of input |
| Framing.ReadPrefix | src/meta.rs:232-248 | cut after any byte, the stream returns exactly the messages wholly contained and then end of input, never another message |
| Framing.CutFrame | src/meta.rs:232-242 | a frame cut anywhere reads as end of input |
| Framing.ContainedIsMaximal | src/meta.rs:245-248 | the messages counted as contained fit the prefix, and one more would not |
| Framing.EverythingContained | src/meta.rs:245-248 | the uncut stream contains every message |
| Cache.CacheRefinesHistory | src/readers.rs:488-544 | after any accepted and rejected ingests of any groups, the entry of (key, group) exists iff the group's last accepted ingest had a tuple for the id and every accepted catalog since lists the key; its value is that ingest's last matching tuple and descriptor |
| Cache.LookupIngested | src/readers.rs:513-543 | what one ingest does to every lookup, of its own group and of the others |
| Cache.OneEntryPerGroup | src/readers.rs:513-535 | no key ever holds two entries of one group |
| Cache.LastTupleCounts | src/readers.rs:515-519 | of several tuples of one id the last one counts |
| Cache.LastDescriptorCounts | src/readers.rs:520-536 | of several descriptors of one key the last one counts |
| Cache.OldestFirst | src/readers.rs:520-536 | a key's entries stand in the order in which their groups were last served |
| Cache.FirstIsOldest | src/readers.rs:463-474 | so the entry that a lookup without a group takes is the one served longest ago |
| Reader.RemoteMemoryProvider.constructor | src/readers.rs:372-379 | starts with no session, no cache, and the invariant |
| Reader.RemoteMemoryProvider.Ingest | src/readers.rs:488-544 | accepts exactly a catalog and tuples of the asked group; the caches become the closed form, the metadata the catalog entry for entry and field for field, or both stay as they were |
| Reader.FillCaches | src/readers.rs:503-543 | metadata, retain-and-push loop and final retain compute the closed form; each entry's fields are the descriptor's |
| Reader.CollectById | src/readers.rs:515-519 | the map holds the last tuple of each id |
| Reader.Refill | src/readers.rs:520-536 | the loop over the catalog, duplicates included, leaves every key with its own expected entry |
| Reader.Join | src/readers.rs:420-442 | greeting, version check, group join and RDMA connection, each of which can fail |
| Reader.RemoteMemoryProvider.OpenSession | src/readers.rs:400-404 | a missing session is created with no channel and an empty slot; an existing one is left alone |
| Reader.RemoteMemoryProvider.Refresh | src/readers.rs:406-416 | a failed exchange on an open channel drops the channel and nothing else |
| Reader.RemoteMemoryProvider.RunFresh | src/readers.rs:417-446 | the slot is filled before the exchange, the channel kept only after it |
| Reader.RemoteMemoryProvider.RunSession | src/readers.rs:399-447 | exactly one session is touched, whichever path is taken and wherever it fails |
| Reader.RemoteMemoryProvider.Update | src/readers.rs:399-448 | succeeds iff every call it makes does and the replies are a catalog and tuples of the group; any greeting other than version 1's Welcome is refused; in every outcome: an open channel has a filled slot, every cached entry's group has a filled slot, no slot object is replaced or emptied, other groups are untouched, and the cache is that of the whole history |
| Reader.RemoteMemoryProvider.GetRemoteMr | src/readers.rs:456-485 | a lookup by group is what the history promises, one without a group the entry of the group served longest ago; every region returned has a connection and shares its session's slot, so it follows reconnects |
| Access.ByteBoundsExact | src/readers.rs:204-217 | the saturating byte check is the unbounded-integer check for all offsets and lengths iff the region is below 2^64 - 1 bytes |
| Access.ElementBoundsExact | src/readers.rs:246-261 | below that size the saturating typed check is offset*elem + n*elem <= size |
| Access.ElementBoundsSaturate | src/readers.rs:315-330 | and only below that size |
| Access.AcceptedRangeInside | src/readers.rs:262-273 | once accepted, no later address addition overflows and the touched range lies inside the region |
| Access.AlignedIffMultiple | src/readers.rs:262-268 | aligned means a multiple |
| Access.AlignmentIsOfTheBase | src/readers.rs:262-268 | when the alignment divides the element size, only the region's base decides the alignment check |
| Access.TypedChecks | src/readers.rs:246-268 | bounds and alignment checks together, over unbounded integers |
| Access.WholeElements | src/readers.rs:313-343 | a byte overwrite at element boundaries is a slice update of the elements and leaves all others as they were |
| Access.SliceElements | src/readers.rs:244-274 | the elements of a slice at element boundaries are a slice of the elements |
| Access.Write | src/readers.rs:284-300 | refused with InvalidInput iff out of bounds or, with a connection, empty; with NoConnection iff in bounds and the slot is empty; succeeds iff non-empty, in bounds and the device is willing, and is then exactly a slice update of the remote bytes; a refused write changes nothing |
| Access.ReadInto | src/readers.rs:197-218 | the same outcomes, the buffer's length among the bounds; success fills exactly the first bytes of the buffer with the remote slice; whatever fails, the buffer changes to that and nothing else |
| Access.WriteTyped | src/readers.rs:313-343 | an element size or alignment other than the region's, as 32-bit words, is refused and changes nothing; succeeds iff both agree, the range is in bounds and not empty, the base is aligned and the device is willing; under 2^32 bytes, success is exactly a slice update of the remote elements and the byte write at the scaled offset; whatever fails, remote memory changes to that and nothing else |
| Access.ReadTyped | src/readers.rs:244-274 | the same refusals and the same condition of success; under 2^32 bytes, success is exactly a slice of the remote elements and the bytes at the scaled offset; whatever fails, the buffer changes to that and nothing else |
| Access.WriteScaled | src/readers.rs:315-343 | the part of the typed write after its layout check |
| Access.ReadScaled | src/readers.rs:246-274 | the part of the typed read after its layout check |
| Access.PostWrite | src/readers.rs:289-300 | slot, registration and post in this order; the narrowed length reaches the device |
| Access.PostRead | src/readers.rs:208-218 | the same for reads |
| Access.WholeTransferIffNarrow | src/rdma/verbs.rs:856-860 | a successful transfer is the whole slice update on every buffer iff it is under 2^32 bytes |
| Access.LostTail | src/rdma/verbs.rs:856-860 | for every longer transfer, a buffer that shows the bytes left out |
| Completion.Connection.OneSided | src/rdma/verbs.rs:830-911 | the call computes the specification function of one call; it is refused iff empty, longer than the registered buffer or in another domain, and then uses no id; every other call uses one |
| Completion.EndsIff | src/rdma/verbs.rs:885-911 | a posted call times out iff no poll fails or takes a completion of its id, having seen all that the rounds brought; it ends otherwise iff the first such poll fails, or takes its completion, as that says |
| Completion.CompletionInTimeIsReported | src/rdma/verbs.rs:885-911 | in every run: if no poll fails and the call's completion is in the queue at some poll with no more others ahead than rounds left, the call ends exactly as it says |
| Completion.WaitsForItsCompletion | src/rdma/verbs.rs:885-911 | on an idle device, after any number of empty polls, the call ends as its completion says and leaves nothing behind |
| Completion.WrIdsNeverRepeat | src/rdma/verbs.rs:855 | below 2^64 calls, no two posted requests share an id |
| Completion.OkOnlyForOwnCompletion | src/rdma/verbs.rs:880-911 | in every run a call returns Ok, or its transfer's failure, only if its own request completed so during the call, once |
| Completion.InOrderLeavesNothingStale | src/rdma/verbs.rs:880-911 | with in-order completion, a call that matched leaves nothing outstanding and no stale completion |
| Completion.OutOfOrderLeavesStale | src/rdma/verbs.rs:880-911 | a run that shows the in-order hypothesis is needed |
| Registry.TupleOfKeeps | src/providers.rs:406-434 | `tuple_of` keeps the tables consistent, loses nothing, and answers with the pair's entry exactly when the pair then has one |
| Registry.AskingKeeps | src/providers.rs:439-471 | so does any sequence of them |
| Registry.Shared.Register | src/providers.rs:288-322 | a fresh id; address, byte size and narrowed layout are captured at registration |
| Registry.Shared.Join | src/providers.rs:583-593 | the connection joins its group, after those that did before; its domain and all other groups stay |
| Registry.Shared.TupleOf | src/providers.rs:406-434 | an unknown pair is answered None iff group or region is missing, and refused iff both are there and the region is empty or the device unwilling; a new tuple has the catalog's address and size and the device's key, an old one its entry's |
| Registry.Shared.CatalogAndTuples | src/providers.rs:439-471 | for any iteration order, the loop's two messages are the whole catalog and the tuples of exactly the regions that then have a registration |
| Interleaving.StepKeeps | src/providers.rs:288-592 | every atomic step of every thread keeps the invariant of tables, held values, ownership and domains |
| ProviderRuns.KeysStay | src/providers.rs:406-434 | before the drop no (region, group) key disappears |
| ProviderRuns.SinceIsTheLookup | src/providers.rs:406-414 | a call in progress did look its pair up, and missed, at the step recorded for it |
| ProviderRuns.FirstAtIsTheFirst | src/providers.rs:425-433 | the recorded first insertion is the first: the pair was in no earlier table |
| ProviderRuns.ReplacedOnlyByAnEarlyMiss | src/providers.rs:406-434 | an entry is replaced only by a call whose lookup preceded that pair's first insertion |
| ProviderRuns.SettledTuple | src/providers.rs:402-434 | once the calls that missed a pair have finished, every request from any thread returns one identical, still registered tuple |
| ProviderRuns.ReturnedTupleLiveIff | src/providers.rs:402-434 | a returned tuple is still registered iff the table still holds that registration |
| ProviderRuns.SoloIsSequential | src/providers.rs:406-434 | the atomic steps, uninterrupted, are the sequential `tuple_of`: tables, answer and kind of refusal |
| ProviderRuns.EveryCallEndsRight | src/providers.rs:406-434 | in every run, whatever interleaves, each call that missed its pair and returns is answered a tuple of that pair, or told there is no such pair because group or region was missing when it looked, or told the registration was refused because the region was empty or the device unwilling |
| Settling.SettledIffNoneAsking | src/providers.rs:402-434 | in any reachable state before the drop with the pair in the table: every later request, whatever threads and device do, is answered with that entry, which stays registered, iff no call for the pair is between its miss and its answer |
| Settling.PendingCallReplaces | src/providers.rs:411-433 | a call that missed the pair, wherever it has got to, can go on to replace the entry and deregister it |
| Settling.FinishAnswers | src/providers.rs:411-433 | a pending call with the device willing ends with a registration of its own in the table and in its answer |
| Settling.OverlapDeregisters | src/providers.rs:425-433 | of two calls that both missed the pair, wherever they have got to, the one that finishes second deregisters what the first returned |
| Overlap.AnsweredThenDeregistered | src/providers.rs:402-434 | a reachable state in which an answered tuple is registered no more |
| Snapshots.EntryStays | src/providers.rs:402-434 | a settled entry, its registration and its region's description are the same in every later live state |
| Snapshots.LaterAnswersSettled | src/providers.rs:439-471 | every answer for a settled pair is of a live registration no pending call can replace |
| Snapshots.SnapshotStaysGood | src/providers.rs:439-471 | if a snapshot's tuples are of live registrations that no pending call can replace, then from there to the drop the reader that ingests it holds exactly what the provider's table has for the regions served |
| Snapshots.AnswersWereAsked | src/providers.rs:446-466 | a thread that was between calls is answered only for pairs it has asked for since |
| Snapshots.KnownIsAnswered | src/providers.rs:406-409 | asking for a pair that is in the table is answered |
| Snapshots.CollectedStaysGood | src/providers.rs:439-471 | the list one thread's loop over the catalog collects while others do anything: if what it was answered is registered and not being asked for when it is done, the reader that ingests it holds, to the drop, exactly the provider's entries of the regions answered |
| Snapshots.SettledGroupStaysGood | src/providers.rs:439-471 | once a group's pairs are settled, every snapshot any thread collects for it serves every catalogued region and stays good to the drop |
| ProviderRuns.DomainNeverChanges | src/providers.rs:572-593 | a group's protection domain never changes before the drop |
| ProviderRuns.GroupsAndEntriesAgree | src/providers.rs:406-593 | in every reachable state every connection of a group lives in its domain and every table entry is a live registration in it of exactly the catalog's address and size |
| ProviderRuns.KeyWorksIffOwnGroup | src/rdma/verbs.rs:1005-1012 | a registration is reached through an accepted connection iff both are of the same group |
| Lifetime.EveryRegistrationGoesInOrder | src/providers.rs:353-358 | in every run that ends with the provider gone, each registration is deregistered exactly once, before its domain is deallocated and before its buffer is freed |
| Lifetime.NothingLiveLosesItsGround | src/rdma/verbs.rs:500-504 | at no point of any run has a live registration lost its domain or its buffer |
| Lifetime.NoTupleAfterJoin | src/providers.rs:488-534 | once service and sessions are joined no step creates a tuple or a registration |
| Releases.EveryDomainIsDeallocated | src/rdma/verbs.rs:622-626 | in every run that ends with the provider gone, each domain ever made is in exactly one deallocation |
| Releases.EveryBufferIsFreed | src/providers.rs:353-358 | then each region's buffer is freed exactly once if its handle was dropped, and not at all while it is held |
| Conversation.RunKeeps | src/readers.rs:399-448 | in every run both sides are where the messages sent and received put them |
| Conversation.NeverSurprised | src/providers.rs:541-635 | whatever fails, neither side ever receives an unexpected message, version or group |
| Conversation.OnlyWhatIsDueIsTaken | src/providers.rs:541-635 | whatever arrives, a message other than the one due (the greeting of version 1, a group, an Update; the Welcome of version 1, the group's pair) is reported and ends the session or the call |
| Conversation.KeptChannelIsDrained | src/readers.rs:406-446 | a channel kept between updates has no unread reply; the exchanges received are the pairs served, one for one and in order |
| Conversation.NeverStuck | src/providers.rs:541-635 | a call in progress that nothing fails always has a next step on one side |
| Conversation.CallCompletes | src/readers.rs:399-448 | without failures every interleaving of a call ends within a fixed number of steps, with an open, drained channel and exactly one exchange more |
| Rendezvous.AtMostOneWelcomed | src/providers.rs:516-593 | at most one reader is ever welcomed and neither accepted nor rejected |
| Rendezvous.AcceptsItsOwnReader | src/rdma/verbs.rs:1017-1059 | the connection request a handshake takes, to accept it or to fail over it, is that of the reader whose WantGroup it read, and the established event that completes it is that connection's own |
| Rendezvous.EveryMatchFits | src/providers.rs:541-593 | in orderly runs every connection accepted, and every handshake completed, is its own reader's |
| Rendezvous.OtherFailuresMismatch | src/providers.rs:524-593 | from any state of an orderly run, one failure that leaves the reader's request or event to be reported later is enough: an orderly continuation completes a handshake with the connection of a reader that asked for another group |
| Rendezvous.OrderlyNeverMismatches | src/providers.rs:524-593 | no orderly continuation of an orderly run ever does |
| Rendezvous.FailureIsSafeIffHarmless | src/providers.rs:524-593 | at any point of any orderly run the current handshake's failure is harmless iff no orderly continuation of it gives a connection to a group its reader did not ask for |
| Pairing.GroupsHoldJoins | src/providers.rs:582-593 | before the drop a group holds exactly the connections of the handshakes that joined it |
| Pairing.ReadersConnectionEndsInItsGroup | src/providers.rs:541-593 | any orderly rendezvous run beside any run of the provider's threads: once a reader's handshake has joined, the connection in its slot ends in the group it asked for and no other, in the domain of exactly that group's registrations |
| EndToEnd.RegisteredIsLookedUp | src/readers.rs:456-544 | snapshot, encoding, stream, decoding, ingest and lookup composed: exactly the catalogued regions with a registration are found, with the address, size and layout captured at registration and the key of the live registration in the group's domain, for any iteration order and any history |
| EndToEnd.ServedIsTheTable | src/providers.rs:439-471 | exactly the ids that had an entry or could be registered end with one, and the tuple served for an id is its entry's |
| EndToEnd.LookupOfSnapshot | src/readers.rs:488-544 | the lookup half of the above |
| EndToEnd.Carry | src/meta.rs:245-281 | two frames written to a channel are the two messages read from it |
| EndToEnd.UpdateOverWire | src/readers.rs:399-448 | the same through the mutable objects of both sides: after `update` the metadata are the regions as registered, in the order served, looking each up by its name and id gives the provider's entry of it, and the reader's cache of the group is the provider's table |
| EndToEnd.LookUpShared | src/readers.rs:456-485 | the lookup of a shared region finds the provider's table entry, with the registered address, size, layout and type and the live key, and a connected slot |
| EndToEnd.DomainsMeet | src/rdma/verbs.rs:1005-1012 | the provider's end of a group's connection lives in the domain of the group's registrations |
| EndToEnd.WriteShared | src/readers.rs:284-300 | a write through the region looked up, over the connection in its slot and into that connection's domain, changes exactly those bytes of the shared buffer, or on failure the first of them; with a willing device it succeeds iff it is non-empty and in bounds |
| EndToEnd.ReadShared | src/readers.rs:197-218 | a read through the region looked up fills exactly the front of the buffer with those bytes of the shared buffer; with a willing device it succeeds iff it is non-empty and in bounds of both |
| EndToEnd.WriteTypedShared | src/readers.rs:313-343 | a typed write through the region looked up succeeds, with a willing device, iff its elements have the size and alignment the region was registered with and it is non-empty, in bounds and aligned; it is then exactly a slice update of the shared buffer's elements; another size or alignment is refused and changes nothing |
| EndToEnd.ReadTypedShared | src/readers.rs:244-274 | the same for a typed read, which is then exactly a slice of the shared buffer's elements |
| Barrier.StepKeeps | tests/common/mod.rs:292-363 | known clocks and clocks in flight never exceed their owner's clock, leavers know every peer at their round, and clocks stay close: kept by every step |
| Barrier.ClockCountsCalls | tests/common/mod.rs:293-294 | a node's clock is the number of its calls |
| Barrier.BarrierHolds | tests/common/mod.rs:280-363 | whenever a node returns from its r-th `synch`, every node has entered its r-th `synch`, for any N, any rounds, and lost, late or unread polls |
| Barrier.ClocksStayClose | tests/common/mod.rs:292-363 | two clocks differ by at most one plus the higher node's failed binds |
| Barrier.ClocksWithinOne | tests/common/mod.rs:292-363 | if no bind fails, no two clocks ever differ by more than one |
| Barrier.BoundIsAttained | tests/common/mod.rs:298 | the bound with failed binds is reached |
| Departure.LeaverHasTold | tests/common/mod.rs:307-420 | in a reliable run, once a node has left a round, a peer has its clock or is about to read it iff the two had an exchange in that round, and only a peer known high enough on entry can have gone without |
| Departure.FirstRoundTellsAll | tests/common/mod.rs:182-191 | after its first round a node has told every peer |
| Departure.SilentPeersAreUntold | tests/common/mod.rs:410-420 | in any run, a peer without an exchange in the round has no way to the round's clock |
| Stranded.EarlyClockStrandsPeer | tests/common/mod.rs:182-191 | a reliable run of two nodes in which one has left its second round and the other still waits for that clock |
| Stranded.UntoldIffAllEarly | tests/common/mod.rs:338-351 | from any point of any reliable run, for any number of nodes, a node's next call can return with no peer told iff every peer is already known at that round |
| Bypass.UntoldIffEarly | tests/common/mod.rs:338-351 | the same peer by peer: it can return with peer j untold iff j is already known at that round, with no bind failing and no reply lost |
| Bypass.AllBroughtIn | tests/common/mod.rs:292-363 | while a node in its loop passes a peer by, all others can be brought to its round from whatever rounds and phases they are in, by calls that finish |
| Synch.GlobalSynch.constructor | tests/common/mod.rs:247-262 | clock zero, every peer's known clock zero |
| Synch.GlobalSynch.Drain | tests/common/mod.rs:330-334 | every heard clock is recorded under the first peer of that address, others are dropped |
| Synch.GlobalSynch.PollAll | tests/common/mod.rs:338-347 | exactly the peers still behind are polled, and whether there were any is reported |
| Synch.GlobalSynch.Synch | tests/common/mod.rs:292-363 | the call computes its laps: the clock rises by one whatever happens, the known clocks become those of the laps run, and it gets through iff they say so |
| Synch.CrossesIffAllHeard | tests/common/mod.rs:326-351 | a call gets through iff at the start of some lap everything known and brought so far puts every peer at this round |
| Synch.TableHoldsEvidence | tests/common/mod.rs:326-347 | known clocks only rise, and only to clocks heard from or replied by that very peer |
| Synch.NotedFromHeard | tests/common/mod.rs:330-334 | after a drain an entry is at least every clock heard from that peer |
| Synch.DrainIsNote | tests/common/mod.rs:330-334 | recording a heard clock is the state machine's Drain |
| Synch.ReplyIsAnswer | tests/common/mod.rs:344-346 | recording a reply is the state machine's ReadReply |
| Synch.BreakIsAll | tests/common/mod.rs:338-351 | the loop's exit condition is the state machine's Break |
| SynchRuns.CallIsLaps | tests/common/mod.rs:292-363 | refinement: in every run of the state machine each call that returns is a call of the node's code: the laps extracted from that run, given to `synch`, take its table on entry to its table on return and get it through |
| SynchRuns.LoopIsLaps | tests/common/mod.rs:326-351 | at every point of the loop the table is what the laps so far, and what was heard since, come to |

## Left out

- The foreign verbs and connection-manager calls, their C layouts and constants: an abstract device with fresh keys, nondeterministic refusal, and completion and event queues stands for them.
- TCP sockets, timeouts, sleeps and deadlines: channels are FIFO, and any send, receive or poll can fail at any step; `bail_out` ends a process and so ends the model's run of that node.
- Environment parsing, cluster deployment and the runner scripts: plumbing around the barrier.
- `RemoteSafe`, `impl_remote_safe!` and `zeroed_vec`: element types are sizes, alignments and bytes.
- `read` and `read_typed`, which allocate a zeroed buffer and call the two modelled reads.
- Handle borrowing through `RefCell`, `Debug` impls and the texts of errors: errors are kinds.
- Word-level atomicity of hardware accesses: a fact about the hardware, not decided by this code.
- Panics and poisoned locks of the provider's threads: every thread takes its steps to the end or fails as the source returns an error.
- Targets whose `usize` is not 64 bits wide: sizes and lengths are 64-bit words.
- Conversation: messages, not bytes, travel on its channel; that a cut or refused frame is a failed receive and nothing else is module Framing's theorem.
- Conversation: a provider session whose reader dropped the channel is followed until the reader's next channel begins; nothing of it can reach that one.
- Rendezvous: events other than request and established do not reach the listener. Whether a listener still reports events of a connection that was dropped is the foreign library's affair, so the model has a failing wait of either kind (`WaitFails`, `Fail`).
- EndToEnd.UpdateOverWire: that the slot's connection ends in the group is a hypothesis here; where it comes from is `Pairing.ReadersConnectionEndsInItsGroup`.
- EndToEnd.RegisteredIsLookedUp: its snapshot runs uninterrupted; the interleaved one is `Snapshots.SnapshotStaysGood`.
- Interleaving: what a session thread receives between updates is left to Conversation; here its calls of `tuple_of` come at any time.
- Registry.Shared.Register: a region count beyond 2^32 - 1 is excluded; the source's counter would wrap or panic there.
- Barrier.ClockCountsCalls: a node's clock is unbounded here, not a 64-bit word.
- Completion.WrIdsNeverRepeat: stated below 2^64 calls on one connection; from there on the 64-bit counter does repeat.
- Completion: the deadline may pass before the first poll here; the source always polls once.
- Access.Write: a transfer that fails in the device has moved some first part of the bytes, possibly none or all, by the time the call returns; one that goes on after a timeout, or that lands out of order, is not modelled.
- Departure.LeaverHasTold: assumes replies are written and read once a poll has been heard; without that a peer may be left untold in any round.
- Synch.GlobalSynch.Synch: polls and the responder's channel are given lap by lap; the responder thread itself is a part of module Barrier.
