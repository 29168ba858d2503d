# PollingTcp core, modelled in Dafny

PollingTcp carries a byte stream over repeated short polls. The client
sends data frames; the server answers each poll with at most one frame
waiting in its outgoing queue. Because several polls can be in flight at
once, frames arrive out of order. Each side therefore stamps its outgoing
frames with a sequence counter on the ring `0..max`, and feeds incoming
frames into a reorder buffer that delivers them in sending order.

This project models, file by file:

- the reorder buffer, `FrameBuffer` (Shared/FrameBuffer.cs). It is a class
  over an `array` of slots. Its `Add` is proved equal, step by step, to a
  reference function `FrameBufferSpec.AddFrame`, which is written on
  values. The properties of the buffer are lemmas about `AddFrame`:
  - the invariant every reachable state keeps;
  - delivery in ring order without gaps;
  - gap recording and gap flushing;
  - the acceptance window;
  - the concrete runs of the repository's unit tests;
- the frame types (Shared/DataFrame.cs) as one datatype, with the
  little-endian four-byte client id that `BitConverter` gives them;
- the two server session revisions:
  - `PollingClientSession`, which has session states, timers and events;
  - the older `ClientSession`, which has no states;
- the poll dispatcher, `PollingServer`;
- the two client state machines, `PollingClient` and `PollingTcpClient`;
- the four transport-layer revisions. Each stamps outgoing frames with a
  wrapping counter and feeds received frames to a reorder buffer;
- `OrderByWithGap` (Shared/CollectionExtensions.cs), a stable sort
  followed by a rotation at the last strict increase of the key.

The sessions and transports call a generic `FrameBuffer<T>` that raises a
`FrameBlockReceived` event. `FrameBuffer<T>` is not part of this model;
Shared/FrameBuffer.cs stands for it, with `FrameId` read as the frame's
sequence id. A frame block that the buffer delivers is the block that
`FrameBuffer.Add` returns.

Events become logs, appended in the order they are raised:
- `events` in the server session;
- `received` in the transports and in `ClientSession`;
- `stateChanges` in the clients;
- `sent` in the network link layer.

Exceptions become `Result`/`Outcome` values.

Random seeds and client ids are chosen nondeterministically in the range
`Random.Next` gives:
- a counter seed is one of `1..max-1`;
- a client id is one of `12..849848`.

Encoders and decoders are function-typed constants supplied at
construction.

Where the code and its comments or tests disagree, the model follows the
code:

- The acceptance window's half-width is `max * 0.3 / 2`, not `max * 0.3`.
- A frame refused by the window stays in the slot it was written to.
- The out-of-order branch walks from `local + 1` up to the frame's id one
  ring turn ahead (`max + frameId`). When the frame is ahead of `local`
  that is more than a turn, so it visits the empty slots between them
  twice and appends duplicates to the missing list. When the frame lies
  behind `local` across the wrap, it visits only the ids between `local`
  and the frame.
- `PollingClient.Send` forwards only while the client is not Connected.
- `PollingServer` hands a client's frame to whichever session the bag
  yields, not to the session with that client id.
- Client ids are random and are not checked for uniqueness.
- `PollingClient` and `PollingTcpClient` have no timers, no Timeout
  handling and no Disconnect.

The frame buffer departs from the code in three places, the first three
rows under "## Findings" below; the third covers both halves of the gap
bookkeeping, the ids recorded as missing and the walk that flushes them.
A fourth row is about `OrderByWithGap`. In each case the as-written code
is kept beside the corrected one.

## Model

| member | source | states |
|---|---|---|
| Frames.WithSequenceId | Source/PollingTcp/Client/ClientTransportLayer.cs:65 | Setting SequenceId changes only the sequence id; the payload, the frame kind and the client id are kept. |
| Frames.Int32ToBytes | Source/PollingTcp/Server/ClientSession.cs:67-75 | `BitConverter.GetBytes(int)` gives exactly four bytes. |
| Frames.Int32RoundTrip | Source/PollingTcp/Client/PollingClient.cs:43-53 | Reading four bytes back with `BitConverter.ToInt32` gives the client id the server wrote. |
| SequenceCounters.AdvanceRulesAgree | Source/PollingTcp/Server/PollingClientSession.cs:196-205 | On the ring `0..max`, both advance rules agree: `c < max ? c + 1 : 0` and "increment, then reset to 0 above max". Both step to the ring successor and keep the counter on the ring. |
| SequenceCounters.SeedOnRing | Source/PollingTcp/Server/PollingClientSession.cs:99 | A seed drawn by `Random.Next(1, max)` lies on the ring `0..max`. |
| SequenceCounters.SeedStartsTurn | Source/PollingTcp/Client/ClientTransportLayer.cs:40 | A counter fresh from its seed has stamped nothing, and its next stamp is the seed. |
| SequenceCounters.StampKeepsTurn | Source/PollingTcp/Client/ClientTransportLayer.cs:62-70 | Stamping with the counter and then advancing it keeps the stamps consecutive ring ids from the seed. So n consecutive sends carry consecutive ids modulo `max + 1`. |
| StateLogs.ChangeLog | Source/PollingTcp/Server/PollingClientSession.cs:181-194 | Setting a state raises one notification, carrying the previous and the new state, exactly when the two differ; otherwise it raises none. |
| StateLogs.ChainExtends | Source/PollingTcp/Client/PollingClient.cs:82-95 | A notification log that leads from the initial state to the current one still does so after another state change. |
| StateLogs.ChainOnlyChanges | Source/PollingTcp/Client/PollingTcpClient.cs:45-58 | Every notification in such a log reports an actual change of state. |
| FrameBufferSpec.Initial | Source/PollingTcp/Shared/FrameBuffer.cs:28-33 | A new buffer has `max + 1` empty slots, is unused, and satisfies the invariant. |
| FrameBufferSpec.TruncDiv20 | Source/PollingTcp/Shared/FrameBuffer.cs:59-61 | The `(int)` cast of the window bounds truncates toward zero, on both signs. |
| FrameBufferSpec.MissingIn | Source/PollingTcp/Shared/FrameBuffer.cs:135-143 | Every id the out-of-order walk records is a slot id in `0..max`. |
| FrameBufferSpec.AddFrame | Source/PollingTcp/Shared/FrameBuffer.cs:35-150 | `Add` never changes `max` or the number of slots, and the missing list only grows. A refused frame leaves `local`, `remote`, `isUnused` and the missing list unchanged. After an accepted frame the buffer is no longer unused. |
| FrameBufferSpec.AddAll | Source/PollingTcp/Shared/FrameBuffer.cs:35-150 | Any sequence of `Add` calls keeps the invariant and the largest id. |
| FrameBufferSpec.WindowAcceptsRemoteAndSuccessor | Source/PollingTcp/Shared/FrameBuffer.cs:58-87 | The window always accepts the remote sequence number and the id that follows it on the ring. |
| FrameBufferSpec.WindowCoversTolerance | Source/PollingTcp/Shared/FrameBuffer.cs:58-87 | The window accepts every id within the tolerance behind or ahead of the remote number, counted around the ring, on either side of the wrap. |
| FrameBufferSpec.WindowWithinTolerance | Source/PollingTcp/Shared/FrameBuffer.cs:58-87 | The converse: every id `0..max` the window accepts lies within the tolerance behind or ahead of the remote number, around the ring, so any id farther away is refused. |
| FrameBufferSpec.RunShape | Source/PollingTcp/Shared/FrameBuffer.cs:96-108 | The gap-closing walk collects the occupied slots from `from` on, consecutively, never past `to`. It stops only at an empty slot or at `to`. |
| FrameBufferSpec.RunContinues | Source/PollingTcp/Shared/FrameBuffer.cs:96-108 | When every frame sits in its own slot, the collected run carries the consecutive ring ids that follow `from - 1`. |
| FrameBufferSpec.MissingInMembers | Source/PollingTcp/Shared/FrameBuffer.cs:135-143 | A slot id is recorded as missing exactly when its slot is empty and the walk visits it. |
| FrameBufferSpec.ContinuesAppend | Source/PollingTcp/Shared/FrameBuffer.cs:110-118 | Two consecutive blocks, the second continuing where the first ended, make one consecutive block. |
| FrameBufferSpec.ContinuesStaysOnRing | Source/PollingTcp/Shared/FrameBuffer.cs:112 | The last id of a consecutive block starting on the ring is on the ring, so `localSequenceNr` stays in `0..max`. |
| FrameBufferSpec.AddPreservesInv | Source/PollingTcp/Shared/FrameBuffer.cs:35-150 | Every `Add` preserves the invariant:<br>- frames sit in their own slots;<br>- `local` and `remote` are in `0..max`;<br>- missing ids are slot ids. |
| FrameBufferSpec.FlushKeepsInv | Source/PollingTcp/Shared/FrameBuffer.cs:91-118 | The gap flush preserves the invariant. |
| FrameBufferSpec.ParkKeepsInv | Source/PollingTcp/Shared/FrameBuffer.cs:130-144 | Parking a frame ahead of the expected one preserves the invariant. |
| FrameBufferSpec.AddEmitsInOrder | Source/PollingTcp/Shared/FrameBuffer.cs:56-128 | Once a first frame was accepted, every `Add` delivers the ids that follow `local`, in ring order without a gap, and moves `local` to the last of them. A refused frame leaves `local` where it was. |
| FrameBufferSpec.FirstFrameDelivered | Source/PollingTcp/Shared/FrameBuffer.cs:44-55 | The first frame is delivered alone, with no window check, becomes `local`, and its slot is cleared. |
| FrameBufferSpec.OutOfRangeIdTouchesNothing | Source/PollingTcp/Shared/FrameBuffer.cs:35-42 | An id above `max` is refused with IdAboveMax, and a negative id with IdBelowZero, and the whole buffer state, slots included, is left as it was. |
| FrameBufferSpec.ExpectedAlone | Source/PollingTcp/Shared/FrameBuffer.cs:120-128 | The expected frame, accepted by the window and not recorded as missing, is delivered alone as `Ok([f])`. It becomes `local`, its slot is emptied (the correction in the second row under "## Findings"), the missing list is kept, and `remote` is updated. |
| FrameBufferSpec.RunSlotsCleared | Source/PollingTcp/Shared/FrameBuffer.cs:96-108 | Every slot the gap-closing walk collects is emptied. |
| FrameBufferSpec.ClearedStep | Source/PollingTcp/Shared/FrameBuffer.cs:98-102 | Emptying the slot of the next id in the walk clears exactly one more visited slot. |
| FrameBufferSpec.RunGrows | Source/PollingTcp/Shared/FrameBuffer.cs:99-101 | An occupied slot moves its frame from the rest of the walk to the end of the collected block. |
| FrameBufferSpec.ClearedKeepsOwnIds | Source/PollingTcp/Shared/FrameBuffer.cs:102 | Emptying slots leaves every remaining frame in the slot of its own id. |
| FrameBufferSpec.GapFlush | Source/PollingTcp/Shared/FrameBuffer.cs:91-118 | A frame that closes a recorded gap is delivered first, followed by the run of waiting frames behind it. Their slots are emptied, and `local` becomes the last id of the run. |
| FrameBufferSpec.OutOfOrderParks | Source/PollingTcp/Shared/FrameBuffer.cs:130-144 | A frame ahead of the expected one waits in its slot, delivers nothing and leaves `local` unchanged. The ids appended to the missing list are exactly the empty slots the walk visits. |
| FrameBufferSpec.ExpectedGapRecorded | Source/PollingTcp/Shared/FrameBuffer.cs:135-143 | While the expected frame is absent, parking a later frame records the expected id as missing, including id 0 after a wrap. |
| FrameBufferSpec.DeliveredFramesLeaveBuffer | Source/PollingTcp/Shared/FrameBuffer.cs:42-128 | After any `Add` that delivers a block, the slot of every delivered frame is empty. |
| FrameBufferSpec.AddAllDeliversInOrder | Source/PollingTcp/Shared/FrameBuffer.cs:35-150 | Over any sequence of `Add` calls after the first frame, the delivered frames carry consecutive ring ids from `local` on, and `local` ends at the last delivered id. |
| FrameBuffers.FrameBuffer.constructor | Source/PollingTcp/Shared/FrameBuffer.cs:28-33 | The fields form the initial state: `max + 1` empty slots, unused. |
| FrameBuffers.FrameBuffer.Add | Source/PollingTcp/Shared/FrameBuffer.cs:35-150 | The in-place update of the array and the fields, together with the returned block or exception, is exactly `AddFrame` on the old state. The invariant is kept. |
| FrameBuffers.FrameBuffer.AddFirstFrame | Source/PollingTcp/Shared/FrameBuffer.cs:44-55 | The first-frame branch follows `AddFirst`. |
| FrameBuffers.FrameBuffer.AddExpectedFrame | Source/PollingTcp/Shared/FrameBuffer.cs:56-128 | The expected-frame branch follows `AddExpected`: the window check, then either the flush or the in-order delivery. |
| FrameBuffers.FrameBuffer.CloseGap | Source/PollingTcp/Shared/FrameBuffer.cs:91-119 | For an expected frame whose id is missing, the collected run is returned. Its slots are emptied, the delivery position moves to its last id, and the bookkeeping is done. |
| FrameBuffers.FrameBuffer.DeliverAlone | Source/PollingTcp/Shared/FrameBuffer.cs:120-128 | An expected frame that closes no gap follows `AddExpected`: it is delivered alone and becomes the delivery position, and its slot is emptied. |
| FrameBuffers.FrameBuffer.AddFrameAhead | Source/PollingTcp/Shared/FrameBuffer.cs:130-144 | The out-of-order branch follows `AddAhead`. |
| FrameBuffers.FrameBuffer.Settle | Source/PollingTcp/Shared/FrameBuffer.cs:146-148 | `remote` becomes the frame id when that id is higher, or lies below `max * 0.3`; otherwise `remote` stays. `isUnused` becomes false. |
| FrameBuffers.FrameBuffer.FlushFrom | Source/PollingTcp/Shared/FrameBuffer.cs:96-108 | The loop returns the run of occupied slots from `from` (modulo the array length), up to the first empty slot, and empties exactly those slots. |
| FrameBuffers.FrameBuffer.RecordMissing | Source/PollingTcp/Shared/FrameBuffer.cs:135-143 | The loop appends, in visiting order, the slot id of every empty slot it visits. |
| FrameBufferScenarios.SingleFrameIsNotBuffered | Source/PollingTcp.Tests/FrameBufferTests.cs:11-25 | A single frame added to an empty buffer is delivered at once. |
| FrameBufferScenarios.RightOrderedFramesAreNotBuffered | Source/PollingTcp.Tests/FrameBufferTests.cs:27-44 | Frames 5 and then 6 are each delivered as they arrive. |
| FrameBufferScenarios.WrongOrderedFramesAreBuffered | Source/PollingTcp.Tests/FrameBufferTests.cs:46-66 | Frames 4, 6, 5: frame 6 waits, and frame 5 then delivers 5 and 6 as one block. |
| FrameBufferScenarios.TooHighFrameIdIsRefused | Source/PollingTcp.Tests/FrameBufferTests.cs:68-76 | An id above `max` is refused with the out-of-range error. |
| FrameBufferScenarios.OverrunWithOrderedFrames | Source/PollingTcp.Tests/FrameBufferTests.cs:78-95 | Frames 10 and then 0 are delivered as they arrive, across the wrap. |
| FrameBufferScenarios.OverrunWithUnorderedFrames | Source/PollingTcp.Tests/FrameBufferTests.cs:97-117 | Frames 9, 0, 10: frame 0 waits across the wrap, and frame 10 delivers 10 and 0 as one block. |
| FrameBufferFindings.MissingInAsWritten | Source/PollingTcp/Shared/FrameBuffer.cs:135-143 | The walk as written records unwrapped ids, from `from` to `to`. |
| FrameBufferFindings.AddFrameAsWritten | Source/PollingTcp/Shared/FrameBuffer.cs:35-150 | `Add` as written keeps the slot array's size. A refused frame leaves `local` and the missing list as they were. |
| FrameBufferFindings.AddExpectedAsWritten | Source/PollingTcp/Shared/FrameBuffer.cs:56-128 | The expected-frame branch as written keeps the slot array's size. |
| FrameBufferFindings.AddAheadAsWritten | Source/PollingTcp/Shared/FrameBuffer.cs:130-144 | The out-of-order branch as written delivers nothing. |
| FrameBufferFindings.AddAllAsWritten | Source/PollingTcp/Shared/FrameBuffer.cs:35-150 | Repeated `Add` as written keeps the slot array's size. |
| FrameBufferFindings.WindowBelowZeroDropsWrap | Source/PollingTcp/Shared/FrameBuffer.cs:76-81 | As written, a lower bound below -1 makes the window accept exactly `0..higher`. |
| FrameBufferFindings.WindowsAgreeAboveMinusTwo | Source/PollingTcp/Shared/FrameBuffer.cs:65-81 | The written window and the corrected window agree whenever the lower bound is at least -1. |
| FrameBufferFindings.ExpectedFrameRefusedAcrossWrap | Source/PollingTcp/Shared/FrameBuffer.cs:76-87 | As written, with ids `0..20`, frames 19 and then 0 are added. Frame 20, the expected one, is then refused, with the bounds 22 and 4. |
| FrameBufferFindings.ExpectedFrameAcceptedAcrossWrap | Source/PollingTcp/Shared/FrameBuffer.cs:76-87 | Corrected, on the same input: frame 20 is accepted and delivers 20 and then 0. |
| FrameBufferFindings.ExpectedFrameStaysInSlot | Source/PollingTcp/Shared/FrameBuffer.cs:120-128 | As written, a frame delivered on the in-order path stays in its slot. |
| FrameBufferFindings.StaleSlotHidesGap | Source/PollingTcp/Shared/FrameBuffer.cs:120-144 | As written, with ids `0..2`, one turn is followed by frame 2 ahead of frame 1. Frame 2 is never delivered, and the next frame with id 2 is delivered in its place. |
| FrameBufferFindings.StaleRunDeliveredInFull | Source/PollingTcp/Shared/FrameBuffer.cs:120-144 | Corrected, on the same input: all six frames are delivered in order, and every slot ends empty. |
| FrameBufferFindings.ZeroNeverRecordedAsWritten | Source/PollingTcp/Shared/FrameBuffer.cs:135-141 | As written, a walk starting at `local + 1 >= 1` never records id 0 as missing. |
| FrameBufferFindings.GapAtZeroStrandsFrame | Source/PollingTcp/Shared/FrameBuffer.cs:91-144 | As written, with ids `0..10`, frames 10, 1, 0 deliver only 10 and 0. Frame 1 is stranded in its slot, and frame 2 is merely parked. |
| FrameBufferFindings.GapAtZeroFlushed | Source/PollingTcp/Shared/FrameBuffer.cs:91-144 | Corrected, on the same input: frames 10, 0 and 1 are delivered in order. |
| CollectionExtensions.KeyClass | Source/PollingTcp/Shared/CollectionExtensions.cs:11 | The elements picked for one key, the stability reference for the sort, are never more than the elements of the list. |
| CollectionExtensions.InsertByKey | Source/PollingTcp/Shared/CollectionExtensions.cs:11 | Insertion into a sorted list keeps it sorted and adds exactly the inserted element. |
| CollectionExtensions.ConsSorted | Source/PollingTcp/Shared/CollectionExtensions.cs:11 | An element whose key is not larger than the first key of a sorted list can go in front of it, and the list stays sorted. |
| CollectionExtensions.InsertByKeyIsStable | Source/PollingTcp/Shared/CollectionExtensions.cs:11 | The inserted element goes first among those with its key. No other element is moved past one with the same key. |
| CollectionExtensions.OrderBy | Source/PollingTcp/Shared/CollectionExtensions.cs:11 | `OrderBy` returns a key-sorted permutation of its input. |
| CollectionExtensions.OrderByIsStable | Source/PollingTcp/Shared/CollectionExtensions.cs:11 | `OrderBy` is stable: for every key, the elements with that key keep their input order. |
| CollectionExtensions.LastRise | Source/PollingTcp/Shared/CollectionExtensions.cs:15-27 | `newRangeAt` is 0, or an index below the number of elements looked at. |
| CollectionExtensions.RotateAtLastRise | Source/PollingTcp/Shared/CollectionExtensions.cs:29-38 | The rotation keeps the length. |
| CollectionExtensions.GapOrdered | Source/PollingTcp/Shared/CollectionExtensions.cs:9-39 | The result has as many elements as the input. |
| CollectionExtensions.OrderByWithGap | Source/PollingTcp/Shared/CollectionExtensions.cs:9-39 | An empty list fails. Otherwise the loop's result is the stable sort rotated at its last strict key increase. The input is a value and is not modified. |
| CollectionExtensions.LastRiseIsLastIncrease | Source/PollingTcp/Shared/CollectionExtensions.cs:15-27 | `newRangeAt` is the last index at which the key strictly increases, or 0 when there is none. |
| CollectionExtensions.GapOrderedIsPermutation | Source/PollingTcp/Shared/CollectionExtensions.cs:29-38 | The result is a permutation of the input. |
| CollectionExtensions.SortedFromInput | Source/PollingTcp/Shared/CollectionExtensions.cs:11 | Every element of the sorted list comes from the input. |
| CollectionExtensions.NoRotationWhenKeysEqual | Source/PollingTcp/Shared/CollectionExtensions.cs:29-38 | A list whose keys are all equal is not rotated. |
| CollectionExtensions.EqualKeysKeepSortOrder | Source/PollingTcp/Shared/CollectionExtensions.cs:29-38 | When every key is equal, the result is the stable sort itself. |
| CollectionExtensions.FlatTail | Source/PollingTcp/Shared/CollectionExtensions.cs:17-27 | After the last rise of a sorted list, every key equals the key at the rise. |
| CollectionExtensions.KeyClassAppend | Source/PollingTcp/Shared/CollectionExtensions.cs:29-35 | The elements with one key, taken from two concatenated lists, are those taken from each, in order. |
| CollectionExtensions.KeyClassAllOrNone | Source/PollingTcp/Shared/CollectionExtensions.cs:29-35 | A list whose every key is `k` is its own key class for `k`. A list with no key `k` has an empty one. |
| CollectionExtensions.SplitAtLastRise | Source/PollingTcp/Shared/CollectionExtensions.cs:17-35 | A sorted list splits at its last rise into a prefix of smaller keys and a block of the largest key. |
| CollectionExtensions.InputInSorted | Source/PollingTcp/Shared/CollectionExtensions.cs:11 | Every input element appears in the sorted list. |
| CollectionExtensions.TopBlockIsKeyClass | Source/PollingTcp/Shared/CollectionExtensions.cs:17-35 | The block from the last rise on is exactly the elements with the largest key. |
| CollectionExtensions.RotationLeadsWithTopBlock | Source/PollingTcp/Shared/CollectionExtensions.cs:29-35 | The rotation puts the largest-key block first, and only smaller keys follow it. |
| CollectionExtensions.MaxKeyElementsLead | Source/PollingTcp/Shared/CollectionExtensions.cs:17-35 | With at least two distinct keys, the result starts with exactly the elements with the maximum key, in input order. Every later element has a smaller key. |
| CollectionExtensions.KeyClassOfSplit | Source/PollingTcp/Shared/CollectionExtensions.cs:29-35 | Elements without key `m` followed by a block of key `m` have that block as their key class for `m`. |
| CollectionExtensions.SortedTopKeyIsMax | Source/PollingTcp/Shared/CollectionExtensions.cs:17-35 | The key at the last rise of the sorted list is the largest key in the input. |
| CollectionExtensions.DistinctKeysRise | Source/PollingTcp/Shared/CollectionExtensions.cs:17-27 | When two input keys differ, the sorted list has a rise, so `newRangeAt` is positive and the list is rotated. |
| CollectionExtensions.WrappedRunRotatedPastItsStart | Source/PollingTcp/Shared/CollectionExtensions.cs:13-35 | The ids 9, 10, 0, 1 sort to 0, 1, 9, 10, a wrapped run with its gap before 9. The rotation at the last rise turns them into 10, 0, 1, 9. |
| CollectionExtensions.AsWrittenBreaksWrappedRun | Source/PollingTcp/Shared/CollectionExtensions.cs:13-35 | For every wrapped run whose gap is not right before its last element, the code's result breaks the run right after its first element, and that is not where the run wraps. |
| CollectionExtensions.LastGap | Source/PollingTcp/Shared/CollectionExtensions.cs:13-27 | The corrected search: 0, or an index just after a jump of more than one between neighbouring keys. |
| CollectionExtensions.RotateAtLastGap | Source/PollingTcp/Shared/CollectionExtensions.cs:29-35 | The corrected rotation keeps the length. |
| CollectionExtensions.GapRotated | Source/PollingTcp/Shared/CollectionExtensions.cs:9-39 | The corrected result has as many elements as the input. |
| CollectionExtensions.LastGapOfWrappedRun | Source/PollingTcp/Shared/CollectionExtensions.cs:13-27 | In a wrapped run, the corrected search finds the run's one gap. |
| CollectionExtensions.WrappedRunInSendingOrder | Source/PollingTcp/Shared/CollectionExtensions.cs:9-39 | Rotated at the gap, a wrapped run is in sending order. It starts just after the gap and ends just before it. Each key is one more than the one before, except where the run wraps. |
| CollectionExtensions.WrappedRunKeptInOrder | Source/PollingTcp/Shared/CollectionExtensions.cs:29-35 | The corrected rotation turns the sorted 0, 1, 9, 10 back into 9, 10, 0, 1. |
| ServerSessions.StateChanges | Source/PollingTcp/Server/PollingClientSession.cs:181-194 | The StateChanged notifications picked out of the event log. |
| ServerSessions.Announce | Source/PollingTcp/Server/PollingClientSession.cs:181-194 | One StateChanged event per state change, in order. |
| ServerSessions.Deliver | Source/PollingTcp/Server/PollingClientSession.cs:143-152 | One FrameReceived event per frame of a block, in block order. |
| ServerSessions.StateChangesAppend | Source/PollingTcp/Server/PollingClientSession.cs:181-194 | The state changes of two concatenated logs are those of each, in order. |
| ServerSessions.StateChangesOf | Source/PollingTcp/Server/PollingClientSession.cs:132-152 | Only StateChanged events count as state changes; FrameReceived and SessionClosed events do not. |
| ServerSessions.Respond | Source/PollingTcp/Server/PollingClientSession.cs:224-231 | A poll is answered with nothing exactly when the queue is empty. Otherwise it is answered with the head's payload, stamped with the counter. |
| ServerSessions.PollingClientSession.constructor | Source/PollingTcp/Server/PollingClientSession.cs:88-107 | The session starts Created, with an empty queue and no events. Its counter starts at a seed in `1..max-1`, and its buffer is new. |
| ServerSessions.PollingClientSession.KeepAlivePackSenderTimerCallback | Source/PollingTcp/Server/PollingClientSession.cs:112-118 | When the queue is empty, the callback queues exactly one empty frame, stamped now. Otherwise nothing changes. |
| ServerSessions.PollingClientSession.HandshakeTimeoutCallback | Source/PollingTcp/Server/PollingClientSession.cs:120-124 | The callback moves to Timeout, raises SessionClosed with this client id and HandshakeTimeout, and ends Closed, with the events in that order. |
| ServerSessions.PollingClientSession.DataReceiveTimeoutCallback | Source/PollingTcp/Server/PollingClientSession.cs:126-130 | The same sequence, with ReceiveTimeout as the reason. |
| ServerSessions.PollingClientSession.CloseSession | Source/PollingTcp/Server/PollingClientSession.cs:132-141 | SessionClosed is raised first, then the session becomes Closed. |
| ServerSessions.PollingClientSession.FrameBufferOnFrameBlockReceived | Source/PollingTcp/Server/PollingClientSession.cs:143-152 | One FrameReceived per frame of the block, in block order. The state-change history is unchanged. |
| ServerSessions.PollingClientSession.Send | Source/PollingTcp/Server/PollingClientSession.cs:154-162 | Outside Connected, `Send` fails with the current state. In Connected it appends the frame to the queue's tail, and nothing else changes. The session's invariant is kept. |
| ServerSessions.PollingClientSession.HandleConnectionRequest | Source/PollingTcp/Server/PollingClientSession.cs:164-172 | The accept response carries the client id as four bytes, which read back to the id, stamped with the next counter value. |
| ServerSessions.PollingClientSession.Start | Source/PollingTcp/Server/PollingClientSession.cs:174-179 | The session moves to Handshaking, notifying the change if there is one. |
| ServerSessions.PollingClientSession.SetNewSessionState | Source/PollingTcp/Server/PollingClientSession.cs:181-194 | StateChanged is raised, with the previous and the new state, only on an actual change. The event log keeps leading from Created to the current state. |
| ServerSessions.PollingClientSession.SetSequenceNr | Source/PollingTcp/Server/PollingClientSession.cs:196-205 | The frame gets the current counter. The counter then moves to `c + 1`, or to 0 after `max`, and the stamps stay consecutive on the ring. |
| ServerSessions.PollingClientSession.HandleClientFrame | Source/PollingTcp/Server/PollingClientSession.cs:207-232 | Handshaking becomes Connected; any other state stays. A data frame is added to the buffer, and a refusal is returned as the error. Otherwise the delivered frames are raised in order, and the queue head is returned stamped (FIFO), or nothing when the queue is empty. The counter advances and the stamp is logged only when a frame leaves. |
| ServerSessions.PollingClientSession.FeedFrame | Source/PollingTcp/Server/PollingClientSession.cs:218-222 | A data frame changes the buffer exactly as `Add` does and returns its result; each delivered frame is raised as FrameReceived, in block order. Any other frame leaves the buffer and the events as they are. |
| ServerSessions.PollingClientSession.TryDequeue | Source/PollingTcp/Server/PollingClientSession.cs:224-231 | The queue's head is removed and returned stamped. The counter advances only when a frame leaves. |
| ClientSessions.ClientSession.constructor | Source/PollingTcp/Server/ClientSession.cs:40-49 | The session starts with an empty queue and no received frames. Its counter starts at a seed in `1..max-1`, and its buffer is new. |
| ClientSessions.ClientSession.FrameBufferOnFrameBlockReceived | Source/PollingTcp/Server/ClientSession.cs:51-60 | One FrameReceived per frame of the block, in block order. |
| ClientSessions.ClientSession.Send | Source/PollingTcp/Server/ClientSession.cs:62-65 | The frame is appended to the queue's tail, in any situation. |
| ClientSessions.ClientSession.CreateAcceptResponse | Source/PollingTcp/Server/ClientSession.cs:67-75 | The accept response carries the client id as four bytes, which read back to the id, stamped with the next counter value. |
| ClientSessions.ClientSession.SetSequenceNr | Source/PollingTcp/Server/ClientSession.cs:77-86 | The frame gets the current counter, the counter wraps to 0 after `max`, and the stamps stay consecutive on the ring. |
| ClientSessions.ClientSession.HandleClientFrame | Source/PollingTcp/Server/ClientSession.cs:88-114 | A null frame skips the buffer. A poll frame fails the cast. A data frame is added, and a refusal is returned as the error. Otherwise the delivered frames are raised and the stamped queue head, or nothing, is returned. The buffer's new state is the one `AddFrame` gives, and it is unchanged when the cast fails. Both failures leave the queue, the counter, the stamps and the received frames unchanged. On success the queue loses its head and the counter moves on once if there was one. |
| ClientSessions.ClientSession.TryDequeue | Source/PollingTcp/Server/ClientSession.cs:106-113 | The queue's head is removed and returned stamped. The counter advances only when a frame leaves. |
| Servers.ServerNetworkLinkLayer.constructor | Source/PollingTcp/Server/IServerNetworkLinkLayer.cs:6-9 | A link layer starts with no poll handler installed. |
| Servers.CreatePollingServer | Source/PollingTcp/Server/PollingServer.cs:26-40 | A null link layer fails. Otherwise the new server is installed as the link layer's poll handler, with no sessions and not accepting. |
| Servers.PollingServer.constructor | Source/PollingTcp/Server/PollingServer.cs:26-40 | The server installs its poll handler on the link layer, starts with no sessions, and does not accept connection requests. |
| Servers.PollingServer.Encoded | Source/PollingTcp/Server/PollingServer.cs:63-70 | A response is encoded exactly when there is one; no response gives a null answer. |
| Servers.PollingServer.NetworkLayerPollHandler | Source/PollingTcp/Server/PollingServer.cs:42-71 | Client id 0 while not accepting: null, and no session. Client id 0 while accepting: exactly one new session, in the bag and the pending queue, whose encoded accept response is returned. Any other id: null without sessions; otherwise some session of the bag handles the frame and its answer is encoded. That session's new buffer, queue, counter, stamps and received frames are those of `HandleClientFrame`. The new session is built with the server's bounds, an empty queue, an initial buffer and nothing received, and its counter has moved on once from its seed. No other session changes. |
| Servers.PollingServer.RouteToSession | Source/PollingTcp/Server/PollingServer.cs:54-61 | The chosen session handles the frame, with its answer and its new buffer, queue, counter, stamps and received frames as `HandleClientFrame` gives them. No other session changes. |
| Servers.PollingServer.CreateNewClientSession | Source/PollingTcp/Server/PollingServer.cs:73-84 | A new session with a fresh client id joins the bag and the tail of the pending queue. It has the server's bounds, an empty queue, an initial buffer and nothing received. Its counter has moved on once from its seed, which stamped the accept response that is returned. |
| Servers.PollingServer.AddSession | Source/PollingTcp/Server/PollingServer.cs:78-80 | The session joins the bag and the tail of the pending queue. The server stays valid. |
| Servers.PollingServer.AcceptResponse | Source/PollingTcp/Server/PollingServer.cs:82 | The accept response carries the session's counter and its client id as bytes. That counter moves on to its ring successor, and the old value is recorded as stamped. Nothing else changes, and every session stays valid. |
| Servers.PollingServer.GetClientSession | Source/PollingTcp/Server/PollingServer.cs:86-89 | A new client id lies in `12..849848`. |
| Servers.PollingServer.Start | Source/PollingTcp/Server/PollingServer.cs:91-94 | `Start` changes nothing. |
| Servers.PollingServer.Accept | Source/PollingTcp/Server/PollingServer.cs:96-108 | Connection requests are accepted from then on, and the oldest pending session, if any, is handed out (FIFO). |
| Transports.NetworkLinkLayer.Send | Source/PollingTcp/Common/INetworkLinkLayer.cs:5-9 | Each call hands exactly one buffer to the network, recorded in order. |
| ClientTransport.ClientTransportLayer.constructor | Source/PollingTcp/Client/ClientTransportLayer.cs:29-43 | The counter starts at a seed in `1..max-1`, and the buffer is new. |
| ClientTransport.ClientTransportLayer.NetworkLayerOnDataReceived | Source/PollingTcp/Client/ClientTransportLayer.cs:45-49 | The bytes are decoded and added to the buffer once. The delivered frames are raised in order, or the buffer's error is returned and nothing is raised. |
| ClientTransport.ClientTransportLayer.IncomingBufferOnFrameBlockReceived | Source/PollingTcp/Client/ClientTransportLayer.cs:51-60 | One FrameReceived per frame of the block, in block order. |
| ClientTransport.ClientTransportLayer.Send | Source/PollingTcp/Client/ClientTransportLayer.cs:62-76 | The frame is stamped with the counter. The counter is incremented and reset to 0 above `max`. Exactly one encoded buffer goes to the network. |
| ClientTransport.ClientTransportLayer.SendControl | Source/PollingTcp/Client/ClientTransportLayer.cs:78-84 | A control frame is encoded as it is, in one network send. The counter is untouched. |
| CommonClientTransport.ClientTransportLayer.constructor | Source/PollingTcp/Common/ClientTransportLayer.cs:28-42 | The counter starts at a seed in `1..max-1`, and the buffer is new. |
| CommonClientTransport.ClientTransportLayer.NetworkLayerOnDataReceived | Source/PollingTcp/Common/ClientTransportLayer.cs:44-48 | The bytes are decoded and added to the buffer once. The delivered frames are raised in order, or the buffer's error is returned. |
| CommonClientTransport.ClientTransportLayer.IncomingBufferOnFrameBlockReceived | Source/PollingTcp/Common/ClientTransportLayer.cs:50-70 | One FrameReceived per frame of the block, in block order. |
| CommonClientTransport.ClientTransportLayer.Send | Source/PollingTcp/Common/ClientTransportLayer.cs:72-86 | The frame is stamped with the counter, which is incremented and reset to 0 above `max`. One encoded buffer goes to the network. |
| CommonClientTransport.ClientTransportLayer.SendControl | Source/PollingTcp/Common/ClientTransportLayer.cs:88-94 | A control frame is encoded as it is, in one network send. The counter is untouched. |
| ClientTransportLinks.ClientTransportLinkLayer.constructor | Source/PollingTcp/Common/ClientTransportLinkLayer.cs:28-42 | The counter starts at a seed in `1..max-1`, and the buffer is new. |
| ClientTransportLinks.ClientTransportLinkLayer.NetworkLayerOnDataReceived | Source/PollingTcp/Common/ClientTransportLinkLayer.cs:44-48 | The bytes are decoded and added to the buffer once. The delivered frames are raised in order, or the buffer's error is returned. |
| ClientTransportLinks.ClientTransportLinkLayer.IncomingBufferOnFrameBlockReceived | Source/PollingTcp/Common/ClientTransportLinkLayer.cs:50-70 | One FrameReceived per frame of the block, in block order. |
| ClientTransportLinks.ClientTransportLinkLayer.Send | Source/PollingTcp/Common/ClientTransportLinkLayer.cs:72-87 | The frame is stamped with the counter, which is incremented and reset to 0 above `max`. One encoded buffer goes to the network. |
| TransportLinks.TransportLinkLayer.constructor | Source/PollingTcp/Common/TransportLinkLayer.cs:27-40 | The counter starts at a seed in `1..max-1`, and the buffer is new. |
| TransportLinks.TransportLinkLayer.NetworkLayerOnDataReceived | Source/PollingTcp/Common/TransportLinkLayer.cs:42-47 | The bytes are decoded and added to the buffer once. The delivered frames are raised in order, or the buffer's error is returned. |
| TransportLinks.TransportLinkLayer.IncomingBufferOnFrameBlockReceived | Source/PollingTcp/Common/TransportLinkLayer.cs:49-58 | One FrameReceived per frame of the block, in block order. |
| TransportLinks.TransportLinkLayer.Send | Source/PollingTcp/Common/TransportLinkLayer.cs:60-75 | The frame is stamped with the counter, which is incremented and reset to 0 above `max`. One encoded buffer goes to the network. |
| PollingClients.Handshake | Source/PollingTcp/Client/PollingClient.cs:43-71 | The handshake is two steps: Disconnected to Connecting, then Connecting to Connected. |
| PollingClients.HandshakeOnly | Source/PollingTcp/Client/PollingClient.cs:82-95 | From Disconnected, the client raises only the handshake's notifications, in order, each at most once. It is Connected only after having been Connecting. |
| PollingClients.CreatePollingClient | Source/PollingTcp/Client/PollingClient.cs:29-41 | A null link layer fails. Otherwise the client starts Disconnected over a new transport. |
| PollingClients.PollingClient.constructor | Source/PollingTcp/Client/PollingClient.cs:29-41 | The transport is built over the link layer, and the state is Disconnected. |
| PollingClients.PollingClient.TransportLayerOnFrameReceived | Source/PollingTcp/Client/PollingClient.cs:43-53 | While Connecting, the payload's first four bytes become the client id, and the client is Connected. A null or short payload fails. In any other state the frame is ignored. |
| PollingClients.PollingClient.NetworkLayerDataReceived | Source/PollingTcp/Client/PollingClient.cs:38-53 | Received bytes pass through the transport's buffer as `Fed` states. A buffer refusal changes nothing in the client. While Connecting, the first delivered frame completes the handshake: its payload gives the client id and the client is Connected. A null or short payload fails. The client ignores every later frame, and any frame in any other state. |
| PollingClients.PollingClient.Connect | Source/PollingTcp/Client/PollingClient.cs:60-71 | Outside Disconnected, `Connect` fails and nothing changes. Otherwise the client moves to Connecting, and exactly one empty data frame with client id 0 is sent, stamped by the transport. |
| PollingClients.PollingClient.Send | Source/PollingTcp/Client/PollingClient.cs:73-80 | As written, the frame is stamped with the client id and sent only while NOT Connected. Once Connected, `Send` does nothing. |
| PollingClients.PollingClient.SetNewConnectionState | Source/PollingTcp/Client/PollingClient.cs:82-95 | ConnectionStateChanged is raised, with the previous and the new state, only on an actual change. |
| PollingTcpClients.PollingTcpClient.constructor | Source/PollingTcp/Client/PollingTcpClient.cs:20-23 | The client keeps the link layer and starts Disconnected. |
| PollingTcpClients.PollingTcpClient.Connect | Source/PollingTcp/Client/PollingTcpClient.cs:30-43 | With no link layer, `Connect` fails before any change. Outside Disconnected it fails. Otherwise the client ends Connecting, with exactly one notification. |
| PollingTcpClients.PollingTcpClient.SetNewConnectionState | Source/PollingTcp/Client/PollingTcpClient.cs:45-58 | The notification is raised, with the previous and the new state, only on an actual change. |
| PollingTcpClients.ConnectsOnce | Source/PollingTcp/Client/PollingTcpClient.cs:30-58 | A PollingTcpClient raises at most one notification ever, and it is Connecting exactly when it has. |

## Left out

- Threads, locks, the concurrent collections and the blocking 1000 ms wait in `PollingServer.Accept`. The model is single-threaded, and `Accept` returns nothing where the C# method would keep waiting.
- The `System.Threading.Timer` objects. Their callbacks are methods the environment may call at any time, and arming, re-arming and disposing the timers are not modelled.
- `new Random(...)`: a seed or a client id is any value in the range `Random.Next` returns.
- `FrameBufferSpec.WindowLower` and `FrameBufferSpec.WindowHigher` treat the double `0.3` as the exact fraction 3/10, and so does the `remote` update. IEEE rounding is not modelled.
- Encoders, decoders and the serializer are supplied functions. A decoder that returns null, or an encoder that throws, is not modelled.
- `BitConverter` is modelled for a little-endian machine only.
- Constructors require `max >= 1` for an outgoing counter, because `Random.Next(1, max)` throws for `max < 1`. The throw itself is not modelled. A frame buffer requires `max >= 0`.
- `FrameBuffer<T>` and `Shared/FrameBlockReceivedEventArgs.cs` are not part of this model; Shared/FrameBuffer.cs stands for them, with `FrameId` as the sequence id.
- Exceptions thrown by an event subscriber, which in C# would abandon `Add` after the event.
- PollingClients.PollingClient.NetworkLayerDataReceived: when the client's handler throws on the first delivered frame, C# raises no later frame of the block, but the transport's `received` log still lists the whole block.
- Stamping in place: `PollingClient.Send` sets `ClientId` on the caller's frame object, and the transports' `Send` methods and the sessions' `SetSequenceNr` set its `SequenceId`, so the caller sees those changes through its own reference. Frames are values here: each of these methods returns or sends a stamped copy, and that aliasing is not modelled.
- The client control frame type parameter is an opaque type `C`, seen only by the encoder.
- ConnectionState is declared outside the modelled files; its four values are taken from its uses.
- `PollingTcpClient` sees its `ILogicalLinkLayer` only as a possibly null reference.
- The `ClientId` setter of `ClientSession`.
- `Client/RequestPool.cs`, `Client/RequestClient.cs` and `Server/PollingTcpServer.cs`, which are stubs.
- `ProcessFrame` of `Common/ClientTransportLinkLayer.cs`, whose only use is commented out.
- The type constraints of `Common/TransportLinkLayer.cs`, which name the unsequenced DataFrame. Both directions carry sequenced frames here.
- `DefaultProtocolSpecification`, the interfaces and the event-args classes, which only carry data.
- `IDisposable` and `Dispose`.
- FrameBuffers.FrameBuffer.Add: a negative frame id, which in C# throws IndexOutOfRangeException at the array store, is returned as the `IdBelowZero` error.

## Findings

| source | as written | input that shows it | evidently intended | confidence | as-written member | corrected member |
|---|---|---|---|---|---|---|
| Source/PollingTcp/Shared/FrameBuffer.cs:76-79 | A negative lower window bound becomes `max - lower - 1`, beyond the largest id, so the window loses every id just behind 0. | Ids `0..20`: add frames 19 and then 0 (remote becomes 0). The expected frame 20 is refused, with bounds 22 and 4. | The bound wraps to `max + lower + 1`, the id that many steps behind 0. | not executed | FrameBufferFindings.ExpectedFrameRefusedAcrossWrap | FrameBufferSpec.WindowCoversTolerance |
| Source/PollingTcp/Shared/FrameBuffer.cs:120-128 | A frame delivered on the in-order path stays in its slot. A turn later, the out-of-order walk takes it for a waiting frame and records no gap. | Ids `0..2`: frames 0, 1, 2, 0, then 2 ahead of 1. Frame 1 never flushes the second frame 2, and the next frame 2 is delivered in its place. | A delivered frame leaves its slot, as on the first-frame and gap-flush paths. | not executed | FrameBufferFindings.StaleSlotHidesGap | FrameBufferSpec.DeliveredFramesLeaveBuffer |
| Source/PollingTcp/Shared/FrameBuffer.cs:96-141 | The missing list records unwrapped ids, and the walk starts at `local + 1 >= 1`, so id 0 is never recorded. The flush walk ends at `max + frameId`. | Ids `0..10`: frames 10, 1, 0. Frame 0 is delivered alone, frame 1 is stranded, and frame 2 is only parked. | Slot ids are recorded, and the flush walks one ring turn from `local + 1`. | not executed | FrameBufferFindings.GapAtZeroStrandsFrame | FrameBufferSpec.ExpectedGapRecorded |
| Source/PollingTcp/Shared/CollectionExtensions.cs:13-35 | The step headed "Find Gap" keeps the last index where the key rises at all, so the largest key is moved to the front. | Ids 9, 10, 0, 1, a run that wrapped after 10: they sort to 0, 1, 9, 10 and come out as 10, 0, 1, 9. | Rotate at the gap, the last jump of more than one between neighbouring keys, giving 9, 10, 0, 1. | not executed; the intent is read from the comment and the method's name, and nothing in the repository calls it | CollectionExtensions.AsWrittenBreaksWrappedRun | CollectionExtensions.WrappedRunInSendingOrder |
