# Verified models of the Steam Remote Play client

This project models the algorithms and state machines inside a client library for the Steam Remote
Play protocol, and proves what they promise. `dafny verify dfyconfig.toml` checks all of it.

| part | files | main results |
|---|---|---|
| Erasure receiver | `Galois*`, `LinearSystem`, `Cauchy`, `Elimination`, `Erasure*`, `Fec*` | the table-driven field is GF(2^8); every square Cauchy system has a solution; lost shards come back byte for byte; a group is delivered on exactly its k-th distinct shard, with its original bytes and the right header, and not twice; what a sender writes is what is read, and nothing else is |
| Frame tickets | `FrameTracker*`, `FrameHistory` | over every interleaving: one winner per ticket, no reuse or release of held memory, a begin hands out the frame that was asked for and no two records stand for one, completions reach statistics once and are not lost before, the lock holder always finishes and everything can be freed; the 256-entry table agrees with the whole history |
| Outgoing transport | `Outgoing*` | the slot array is an exact index of the retained packets through growth and id wrap-around, each packet is freed once; the sentinel-driven sort is a sorting permutation; a sending pass attempts no packet twice and drops exactly the old ones; the rate bound holds over whole runs |
| Discovery | `Discovery*` | owner balance, accepted changes take effect, committed targets, linearized commands, one send per generation, one full and at most two fast sends per round; the random generator is 16807 s mod 2^31-1 |
| Launching | `Streaming` | at most one final notice, three key derivations and one secret rotation per launch; every event sends exactly what is due; recently retired ids are never reused |
| Input reports | `HidReport`, `HidRuns` | decoding everything sent and queued gives the most recent device state, exactly when no other state is taken for a repetition |
| Network and clock | `Rings`, `SampleQueue`, `NetworkWindow`, `NetworkStats`, `StreamClock`, `FrameStats` | running sums equal sums over the history window; the clock offset errs by at most half a round trip; the frame drain emits each frame once, in order |

`Words`, `Wrappers`, `Modular` and `Sets` hold machine words, optional values, remainders and set sizes.

How the models are built:

- Code that updates fields, arrays and lists in place is modelled by classes and methods. Their
  `ensures` clauses tie the new state to a function of the old one, and ghost fields record the
  history (every packet ever retained, every sample ever recorded, every notice ever given).
- The ticket tracker is a transition system. Producers act without the lock between any two steps of
  the operation that holds it; long scans under the lock are one step per record. Visitors of the
  client's timers hold one mutex throughout, so each is one step.
- Machine arithmetic is written out: words are integers with explicit wrap-around, signed
  reinterpretation and truncating division.
- Clocks, random draws, allocation success, cryptographic results and send results are parameters.
  A 64-bit receive generation is a natural number that does not wrap.

Where the code does not keep a property on all inputs, the condition under which it does is proved
together with a failing case:

- An input report of length zero is not remembered as the most recent state. `HidRuns.Run` proves for runs with
  any states when the host is right; `HidRuns.EmptyStateLosesTheNext` shows a loss.
- The 32-bit age test of network samples takes an old sample for a fresh one when its age has wrapped around into
  the window. `NetworkStats.Packets.Record` and its siblings prove that this is the only failure;
  `NetworkStats.LapsedMiscounts` reaches a wrong total.
- A discovery Disable from inside a callback keeps the owner balance if and only if every point of the
  queue has an owner to spare (`DiscoveryQueue.BalancedShift`, `Discovery.Client.Change`);
  `Discovery.NestedDisableUnbalances` reaches a state where it does not.
- What lies before the base of a loss report is found by comparing ids as plain numbers. This counts right if and
  only if the difference stays within half the range (`OutgoingReport.EarlyExactIff`);
  `OutgoingWindow.WrapLeavesUnmarked` reaches an unmarked packet.
- Bytes of one tick that overflow an int32 are taken back wrongly when the window has passed them.
  `NetworkStats.Bitrate.Record` says exactly when the total is right; `NetworkStats.OverflowMiscounts` reaches a
  wrong one.
- The same age test in the clock keeps a lapsed trip in the mean (`StreamClock.Clock.Feedback`,
  `StreamClock.LapsedTripStays`); the error bound of the offset holds all the same, over the trips retained.
- Two deliveries are of the same group id if and only if the ids have gone around completely in between
  (`FecRuns.NoSecondDelivery`); `FecRuns.SameIdAgain` is a run in which they have.

## Model

| member | source | states |
|---|---|---|
| `Galois.MulAddRight` | src/session/fec.c:23-36 | carry-less multiplication modulo 0x11d distributes over exclusive or, which is what makes the table a field multiplication |
| `Galois.MulPolynomial` | src/session/fec.c:28-30 | the reduction polynomial multiplies to zero, so reducing on overflow does not change products |
| `Galois.DoubleMul` | src/session/fec.c:28-30 | one generator step on a factor is one generator step on the product |
| `GaloisOrder.OrderExact` | src/session/fec.c:24-31 | no power of the generator below 255 is 1, so the loop visits 255 different values |
| `GaloisOrder.LogExists` | src/session/fec.c:24-31 | every nonzero byte is a power of the generator, so the log table is complete |
| `GaloisField.MulComm` | src/session/fec.c:32-36 | products commute |
| `GaloisField.MulAssoc` | src/session/fec.c:32-36 | products associate |
| `GaloisField.Distribute` | src/session/fec.c:32-36 | products distribute over sums on both sides |
| `GaloisField.InvLaw` | src/session/fec.c:33 | every nonzero byte has an inverse |
| `GaloisField.NoZeroDivisors` | src/session/fec.c:34-35 | a product is zero only if a factor is |
| `GaloisField.ProductLookup` | src/session/fec.c:34-35 | the doubled exponent table at the sum of two logarithms is the product |
| `GaloisField.BuildPowers` | src/session/fec.c:23-31 | the loop fills the exponent table twice over and the logarithm table as its inverse |
| `GaloisField.FillRow` | src/session/fec.c:34-35 | one row of the multiplication table, and nothing else |
| `GaloisField.FillInverse` | src/session/fec.c:33 | one inverse, and nothing else |
| `GaloisField.BuildTables` | src/session/fec.c:19-39 | the finished tables hold every product and every inverse of the field |
| `Cauchy.ClearColumn` | src/session/fec.c:66-68 | clearing one column of a Cauchy system leaves a scaled Cauchy system |
| `Cauchy.KernelTrivial` | src/session/fec.c:66-68 | a square Cauchy matrix over distinct points kills no nonzero vector |
| `Elimination.MultiplyAdd` | src/session/fec.c:59-64 | adds the multiple of one row to another row and leaves every other row alone |
| `Elimination.SwapRows` | src/session/fec.c:120-125 | exchanges two rows |
| `Elimination.ScaleRow` | src/session/fec.c:126-128 | multiplies one row |
| `Elimination.FindPivot` | src/session/fec.c:112-118 | the first row from the diagonal on with a nonzero entry, or none |
| `Elimination.NormalizePivot` | src/session/fec.c:119-128 | brings the pivot to the diagonal as 1 without changing the solutions |
| `Elimination.EliminateColumn` | src/session/fec.c:129-136 | clears the rest of the column without changing the solutions |
| `Elimination.NullVector` | src/session/fec.c:115-118 | a column without a pivot gives a nonzero vector in the kernel |
| `Elimination.GaussJordan` | src/session/fec.c:110-137 | keeps the solutions; ends with the identity on the left, or proves the matrix singular |
| `ErasureCode.NonSingular` | src/session/fec.c:97-101 | the system built from distinct parity rows and missing columns is never singular |
| `ErasureCode.Recover` | src/session/fec.c:138-145 | the right half of the reduced system applied to the right sides is the missing data |
| `ErasureDecoder.ScanMissing` | src/session/fec.c:72-78 | the indices of the missing data shards in order, or too many of them |
| `ErasureDecoder.ScanParity` | src/session/fec.c:83-87 | the first parity shards present, as many as needed exactly if there are enough |
| `ErasureDecoder.BuildEquation` | src/session/fec.c:97-101 | one Cauchy row beside its unit vector |
| `ErasureDecoder.BuildKnown` | src/session/fec.c:102-108 | the parity shard with every present data shard subtracted |
| `ErasureDecoder.BuildSystem` | src/session/fec.c:88-109 | the whole Cauchy system and all right sides |
| `ErasureDecoder.PivotsExist` | src/session/fec.c:110-118 | the pivot search on that system cannot fail |
| `ErasureDecoder.RestoreShard` | src/session/fec.c:139-145 | writes the weighted sum of the right sides into the one missing shard |
| `ErasureDecoder.RestoredShard` | src/session/fec.c:139-145 | that weighted sum is the original shard |
| `ErasureDecoder.Reconstruct` | src/session/fec.c:69-149 | succeeds exactly when enough parity is present and memory suffices, restores every missing shard of any original data byte for byte, touches nothing else, and changes nothing on failure |
| `FecReceiver.EnoughShards` | src/session/fec.c:207-213 | k distinct shards are exactly what reconstruction needs |
| `FecReceiver.Receiver.constructor` | src/session/fec.c:19-39 | starts with the field tables, no group, and the last id before 0 |
| `FecReceiver.Receiver.Reset` | src/session/fec.c:41-46 | forgets the active group and keeps the last delivered id |
| `FecReceiver.Receiver.Activate` | src/session/fec.c:183-199 | a new group with no shards present |
| `FecReceiver.Receiver.Store` | src/session/fec.c:207-211 | stores the shard, marks it, and counts it; the count stays the number of marked shards |
| `FecReceiver.Receiver.Deliver` | src/session/fec.c:212-222 | hands out the group's bytes exactly when it is complete, and then ends the group |
| `FecReceiver.Receiver.Add` | src/session/fec.c:151-223 | the whole packet step: a packet that is malformed, not ahead or inconsistent changes nothing, an accepted one is stored once, completion delivers; also the header kept for the frame, and an error exactly when memory was missing. Which packets are well-formed is `FecPackets.ParsesExactly`, which are ahead `FecReceiver.AheadExact` |
| `FecReceiver.AheadExact` | src/session/fec.c:159-162 | on unwrapped ids within half the range, a group is ahead exactly if its id is greater than the last delivered one |
| `FecPackets.ReadsWord32` | src/session/fec.c:166 | four bytes read as a word exactly if they are its little-endian form |
| `FecPackets.SendableExactly` | src/session/fec.c:169-179 | a group fits exactly if k shards just cover its bytes within the limits and, with parity, there are at most 255 shards |
| `FecPackets.ParsesExactly` | src/session/fec.c:156-179 | a packet is read as a layout if and only if it is a shard packet of that layout, byte for byte, within the limits |
| `FecPackets.SentParses` | src/session/fec.c:156-179 | every shard of every group that fits, written as a sender does, is read back: layout, index and bytes |
| `FecRuns.StepKeepsOk` | src/session/fec.c:151-223 | the receiver state stays consistent over every packet |
| `FecRuns.StepMovesForward` | src/session/fec.c:159-162 | each delivery moves the last id forward by less than half the id range |
| `FecRuns.NoSecondDelivery` | src/session/fec.c:159-162 | two deliveries are of the same id if and only if the last id has travelled a whole number of turns of the id range in between, at least one |
| `FecRuns.WithoutRefused` | src/session/fec.c:153-182 | a run without its refused packets is still a run, and ends in the same state |
| `FecRuns.GroupDelivered` | src/session/fec.c:151-223 | over every sequence of the sender's own packets of one group and refused packets of any kind, with duplicates and in any order, the original bytes come out on exactly the k-th distinct shard and never otherwise |
| `FecRuns.GroupHeader` | src/session/fec.c:197-206 | while a group is collected, the stored header stands for all its packets: lowest index (earliest such packet), first arrival, last arrival; refused packets leave no trace in it |
| `FecRuns.DeliveredHeader` | src/session/fec.c:200-218 | a delivered frame carries the original bytes and the lowest fragment index, first arrival and last arrival of its packets |
| `FecRuns.FirstArrivalIs` | src/session/fec.c:202-205 | the first arrival is that of the first packet, unless its clock read the sentinel zero |
| `FecRuns.SameIdAgain` | src/session/fec.c:159-162 | a run of four deliveries whose first and last carry the same id |
| `FrameTrackerSafety.StepKeeps` | src/session/frame_tracker.c:61-432 | every step of every thread keeps the reference count, record and lock-holder invariants |
| `FrameTrackerSafety.StepEvolves` | src/session/frame_tracker.c:159-335 | what one step can do to a record: the legal publication changes, expiry only when its time is up, closing only with its epoch or as undecoded input, or a new incarnation of an unheld one. Which frame a new or joined record stands for is `FrameTrackerBegins.BeginServed` |
| `FrameTrackerSafety.FreedIsUnused` | src/session/frame_tracker.c:70-81 | when the count reaches zero nobody holds anything and no step is possible |
| `FrameTrackerSafety.CopyTakesAll` | src/session/frame_tracker.c:368-394 | a copy with room left has taken every completion that was due when it began |
| `FrameTrackerSafety.ClosedEpochSettled` | src/session/frame_tracker.c:101-113 | after an epoch closes every record of it is settled and none is open |
| `FrameTrackerRuns.Reachable` | src/session/frame_tracker.c:82-100 | the invariant holds in every state of every run |
| `FrameTrackerRuns.TicketMonotone` | src/session/frame_tracker.c:159-171 | within one incarnation a ticket never opens again and marks are never taken back |
| `FrameTrackerRuns.OneWinner` | src/session/frame_tracker.c:159-163 | every incarnation leaves Open at most once, whoever claims, expires or closes it |
| `FrameTrackerRuns.ReadyWasClaimed` | src/session/frame_tracker.c:164-171 | a ready ticket was claimed earlier in the same incarnation |
| `FrameTrackerRuns.RecycledOnlyUnheld` | src/session/frame_tracker.c:251-304 | a record changes incarnation only with zero references, by exactly one version, and never while open or claimed |
| `FrameTrackerRuns.VersionGrows` | src/session/frame_tracker.c:292-294 | records stay allocated and their versions only grow |
| `FrameTrackerRuns.HandedOnce` | src/session/frame_tracker.c:375-389 | a completion is handed to statistics at most once, as a finished one of the open epoch |
| `FrameTrackerRuns.NotLostBeforeHandOver` | src/session/frame_tracker.c:255-264 | once statistics are tracked, no completion is settled or recycled before its hand-over unless an epoch closes |
| `FrameTrackerBegins.StepBegins` | src/session/frame_tracker.c:218-312 | every step keeps what the begin in progress knows about its frame, and no two records standing for the same sequence of an epoch |
| `FrameTrackerBegins.BeginServed` | src/session/frame_tracker.c:186-316 | over every run, a begin that ends with a ticket ends with a live record of the epoch, sequence and kind asked for; a fresh untouched one only if no record stood for that sequence |
| `FrameTrackerBegins.OneRecordPerSequence` | src/session/frame_tracker.c:223-249 | at no moment of any run do two live records stand for the same sequence |
| `FrameTrackerBegins.GrowsOnlyWhenFull` | src/session/frame_tracker.c:250-287 | storage grows only when the scan found every record in use as it passed |
| `FrameTrackerSweeps.PassSettlesAll` | src/session/frame_tracker.c:401-432 | a settle pass with room left leaves no overdue frame open and has settled everything finished when it began |
| `FrameTrackerSweeps.DecodedStays` | src/session/frame_tracker.c:325-350 | a frame handed to the decoder is never abandoned; outside the closing of an epoch only completion or its timeout ends it |
| `FrameTrackerSweeps.DecodeMarks` | src/session/frame_tracker.c:336-350 | a begin of decoding on a live ticket marks it |
| `FrameTrackerLiveness.ReachableFits` | src/session/frame_tracker.c:61-69 | the endpoint count never overflows its word |
| `FrameTrackerLiveness.HolderProceeds` | src/session/frame_tracker.c:101-432 | whatever other threads do, the operation that holds the lock can go on |
| `FrameTrackerLiveness.HolderAdvances` | src/session/frame_tracker.c:101-432 | each of its steps brings it closer to its end |
| `FrameTrackerLiveness.OthersWait` | src/session/frame_tracker.c:140-171 | threads without the lock neither hold it up nor change what it is doing |
| `FrameTrackerLiveness.CanBeFreed` | src/session/frame_tracker.c:70-81 | from every state that keeps the invariant the tracker can be closed and its memory freed |
| `FrameTrackerLiveness.CloseOutcome` | src/session/frame_tracker.c:114-139 | opening leaves the new epoch open, closing leaves none, closing the tracker gives it up |
| `FrameTrackerLiveness.CallsAdmitted` | src/session/frame_tracker.c:116-131 | an epoch opens only above the current one, and only the current one closes or takes frames |
| `FrameTrackerLiveness.FirstCalls` | src/session/frame_tracker.c:82-100 | at first no frame can begin and no statistics are kept; any positive epoch can be opened |
| `FrameTrackerLiveness.AbandonSettles` | src/session/frame_tracker.c:325-335 | open input is given up exactly if its decoding has not begun |
| `FrameTrackerLiveness.ScanVerdict` | src/session/frame_tracker.c:223-249 | a scan that meets its frame joins an open one and ends stale at a finished one |
| `FrameTrackerLiveness.JoinGives` | src/session/frame_tracker.c:230-248 | a join with its endpoint reference always gets the ticket, because the ticket's count cannot be full |
| `FrameTrackerLiveness.TakeProceeds` | src/session/frame_tracker.c:288-291 | a fresh frame is taken exactly unless the serial numbers or the references are used up |
| `FrameHistory.DeltaNear` | src/session/frame_tracker.c:200-218 | the 16-bit difference locates the only nearby sequence with this id, or there is none |
| `FrameHistory.History.Reset` | src/session/frame_tracker.c:118-124 | a new epoch forgets all sequences |
| `FrameHistory.History.Locate` | src/session/frame_tracker.c:198-219 | ambiguous, stale, exhausted or found, each exactly when the nearby sequence is missing, too old, too large or neither |
| `FrameHistory.History.Contains` | src/session/frame_tracker.c:266-270 | within the horizon the table answers as the full set of begun sequences would |
| `FrameHistory.History.Remember` | src/session/frame_tracker.c:305-311 | adds one sequence to the set and never lowers the highest |
| `FrameHistory.History.Begin` | src/session/frame_tracker.c:198-311 | a fresh ticket goes only to a sequence that never had one in this epoch, and it carries the given id |
| `OutgoingSort.Sort3` | src/session/outgoing_sort.c:15-30 | orders three positions by rearranging them |
| `OutgoingSort.Insert` | src/session/outgoing_sort.c:39-46 | moves one value into the sorted positions before it |
| `OutgoingSort.Insertion` | src/session/outgoing_sort.c:31-51 | sorts the range, or gives up in the incomplete mode having only rearranged it |
| `OutgoingSort.ScanUp` | src/session/outgoing_sort.c:68-70 | the unguarded loop stops at or before its sentinel |
| `OutgoingSort.ScanDown` | src/session/outgoing_sort.c:71-73 | the unguarded loop stops at or before its sentinel |
| `OutgoingSort.EqualLeft` | src/session/outgoing_sort.c:52-80 | splits off the elements not after the pivot |
| `OutgoingSort.EqualRight` | src/session/outgoing_sort.c:81-109 | splits the range around the pivot, and reports exactly whether it was split already |
| `OutgoingSort.SortRange` | src/session/outgoing_sort.c:110-136 | terminates and sorts its range, relying on the element before it as a guard |
| `OutgoingSort.Sort` | src/session/outgoing_sort.c:137-140 | a permutation of the input in non-increasing priority |
| `OutgoingOrder.Order.Register` | src/session/outgoing.c:51-67 | channels are created without gaps up to the requested one; a known channel changes nothing |
| `OutgoingOrder.Order.SetPriority` | src/session/outgoing.c:68-76 | sets one priority and asks for a new order |
| `OutgoingOrder.Order.Snapshot` | src/session/outgoing.c:261-275 | all channels once, in non-increasing priority; repeated calls agree |
| `OutgoingOrder.RetryOrder` | src/session/outgoing.c:296-300 | the retry pass visits every channel of the snapshot once, from the rotation on |
| `OutgoingOrder.Order.RetryPass` | src/session/outgoing.c:288-306 | visits and advances the stored rotation, or does nothing when not connected |
| `OutgoingOrder.EveryStart` | src/session/outgoing.c:301-303 | among any count + 1 passes every position is the starting one |
| `OutgoingSlots.OccupiedInWindow` | src/session/outgoing.c:30-34 | no slot outside the window is occupied |
| `OutgoingWindow.Window.Release` | src/session/outgoing.c:19-29 | removes one packet from the map and frees it once |
| `OutgoingWindow.Window.Get` | src/session/outgoing.c:30-34 | agrees with the map of retained packets |
| `OutgoingWindow.Window.Advance` | src/session/outgoing.c:35-42 | removes exactly the first ids of the window |
| `OutgoingWindow.Window.EnsureCapacity` | src/session/outgoing.c:110-137 | grows when needed and possible, and keeps the map and all creation times |
| `OutgoingWindow.Window.Retain` | src/session/outgoing.c:138-167 | adds exactly this packet with its creation time, or changes nothing; with memory it fails only for a retained id or a span over half the range; where head, tail and cursor end |
| `OutgoingWindow.Window.Expire` | src/session/outgoing.c:183-185 | on the unwrapped clock, with ages and keep below half its range: every packet dropped is older than keep, and the one left at the head is not |
| `OutgoingSlots.ExpiredExact` | src/session/outgoing.c:183-184 | on unwrapped clocks within half range, a packet has expired exactly if its age exceeds keep |
| `OutgoingWindow.Window.ClampCursor` | src/session/outgoing.c:186-187 | the cursor ends inside the window and moves only if it was outside |
| `OutgoingWindow.Window.Attempt` | src/session/outgoing.c:168-173 | every attempt stamps the packet unless the transport is detached, and only a successful one is counted |
| `OutgoingWindow.Window.SendPending` | src/session/outgoing.c:188-195 | attempts exactly the retained packets from the cursor on, in order, all but the last with success; the cursor stays at a failure |
| `OutgoingWindow.Window.Resend` | src/session/outgoing.c:196-201 | the unbounded id loop ends at the cursor's start and attempts exactly the packets that are due again, in order, up to the first failure |
| `OutgoingWindow.Window.SendUnreliable` | src/session/outgoing.c:174-204 | one pass: on the unwrapped clock only packets older than keep are dropped and the head left is not older, the log names exactly who was attempted and no id twice, and every packet is as its attempt left it |
| `OutgoingPass.AttemptsCounted` | src/session/outgoing.c:168-173 | over any attempts the count grows by the successful ones up to 255, and a refused transport leaves the packet alone |
| `OutgoingPass.ResultIs` | src/session/outgoing.c:168-200 | an attempt counts as sent exactly if it was stamped and succeeded |
| `OutgoingSlots.MarkedExact` | src/session/outgoing.c:205-210 | on unwrapped clocks, a packet sent by the cutoff becomes due again and any other stays |
| `OutgoingReport.HeededExact` | src/session/outgoing.c:219-224 | on unwrapped clocks, a report counts unless sent before the last one or cut off |
| `OutgoingReport.CutoffExact` | src/session/outgoing.c:225-232 | the cutoff is the later of the aged present and the echoed time |
| `OutgoingReport.ConfirmedRetires` | src/session/outgoing.c:233-238 | on unwrapped ids, exactly the window's ids up to the confirmed one are retired |
| `OutgoingPass.PassDistinct` | src/session/outgoing.c:190-201 | the two loops of a pass never attempt one packet twice |
| `OutgoingPass.PassIds` | src/session/outgoing.c:190-201 | exactly which ids a pass attempts |
| `OutgoingPass.PassDue` | src/session/session.c:266-278 | exactly which packets are due after a pass: those not reached, those refused before a stamp, and those stamped zero |
| `OutgoingWindow.Window.Mark` | src/session/outgoing.c:205-210 | changes at most the send time of the one packet |
| `OutgoingWindow.Window.NackByte` | src/session/outgoing.c:241-248 | releases exactly the acknowledged ids behind the cursor and marks exactly the ids reported lost |
| `OutgoingWindow.Window.SkipGaps` | src/session/outgoing.c:238-239 | the head moves to the first retained id or to the end, and nothing is lost |
| `OutgoingWindow.Window.ApplyReport` | src/session/outgoing.c:233-249 | drops the confirmed ids, leaves the head at the first retained id, then does what the whole bitmap says, and keeps every other packet as it was |
| `OutgoingWindow.Window.MarkBefore` | src/session/outgoing.c:250-254 | marks exactly the ids of the window that the plain difference covers |
| `OutgoingReport.EarlyExactIff` | src/session/outgoing.c:250-253 | the plain difference counts the ids before the base if and only if it stays within half the range, or nothing is retained |
| `OutgoingWindow.WrapLeavesUnmarked` | src/session/outgoing.c:250-254 | a packet just before the base that is not marked because the id wraps around |
| `OutgoingWindow.Window.Nack` | src/session/outgoing.c:211-257 | an outdated or short report changes nothing retained; a heeded one releases exactly what it confirms, marks exactly what it reports lost, and determines the new head |
| `OutgoingWindow.Window.Deinit` | src/session/outgoing.c:43-50 | afterwards every packet ever retained has been freed |
| `OutgoingShaper.Shaper.CanSend` | src/session/outgoing.c:86-91 | packets of types 3 and 4, or 5 and 6, may go exactly when the deadline of their class has passed; all others always |
| `OutgoingShaper.Shaper.Sent` | src/session/outgoing.c:92-109 | moves the deadline of the packet's class only |
| `OutgoingShaper.DeadlineTracks` | src/session/outgoing.c:92-109 | the 32-bit deadline is the unwrapped one, over whole runs |
| `OutgoingShaper.ShaperBound` | src/session/outgoing.c:86-109 | the cost of all sends before an allowed one is at most the time since the first plus 65 ticks |
| `OutgoingShaper.CostExact` | src/session/outgoing.c:92-109 | the cost is the time the bytes take at the rate, rounded down to ticks |
| `OutgoingShaper.ShaperBytes` | src/session/outgoing.c:86-109 | in bytes: at most the rate times the time since the first send plus 65 ticks and one tick of rounding per packet |
| `OutgoingShaper.NextAllowed` | src/session/outgoing.c:86-91 | within half range, a send is allowed exactly when the unwrapped deadline has passed |
| `DiscoveryRandom.Step` | src/client/discovery_random.c:22-23 | the split multiplication is 16807 s mod 2^31-1, for every 32-bit state |
| `DiscoveryRandom.IteratePower` | src/client/discovery_random.c:15-19 | n steps multiply by the n-th power of 16807 |
| `DiscoveryRandom.Generator.Warm` | src/client/discovery_random.c:11-21 | the shuffle table holds the last 32 of 40 steps |
| `DiscoveryRandom.SeedMagnitude` | src/client/discovery_random.c:3-14 | a seed starts at its magnitude, and zero like one |
| `DiscoveryRandom.Generator.Next` | src/client/discovery_random.c:9-29 | the result is the table entry at the index of the previous output, below 32; the next state of the stream replaces it |
| `DiscoveryRandom.Generator.Draw` | src/client/discovery_random.c:31-38 | a value in the interval: the remainder of the generator's last output, which was an accepted one |
| `DiscoveryRandom.AcceptedEvenly` | src/client/discovery_random.c:33-37 | accepted draws are a whole number of intervals, so every value is hit equally often |
| `DiscoveryQueue.WithinPush` | src/client/discovery.c:118-122 | how one more command changes the balance at every point of the queue |
| `DiscoveryQueue.BalancedPush` | src/client/discovery.c:211-214 | queueing keeps the balance exactly if the accepted owners stay in range |
| `DiscoveryQueue.BalancedShift` | src/client/discovery.c:196-206 | a nested change keeps the balance exactly if every point of the queue has room for it |
| `DiscoveryQueue.DrainedPush` | src/client/discovery.c:156-160 | the last queued targets are the ones that will be committed |
| `DiscoveryQueue.DrainedFrom` | src/client/discovery.c:112-117 | with targets queued the present ones do not matter, without any they stay |
| `DiscoveryQueue.CommandQueue.Push` | src/client/discovery.c:118-122 | appends to the ring's contents |
| `DiscoveryQueue.CommandQueue.Pop` | src/client/discovery.c:249-252 | takes the first of the ring's contents |
| `DiscoveryRounds.FullSend` | src/client/discovery.c:359-364 | a full send opens a new round under the next sequence number and keeps one full and at most two fast sends per round |
| `DiscoveryRounds.FastSend` | src/client/discovery.c:365-369 | a fast send carries its round's number and keeps the bound of the round |
| `DiscoveryRounds.OneRoundPerNumber` | src/client/discovery.c:302-305 | sends with one sequence number belong to one round, until the numbers have gone around |
| `DiscoveryTrace.TurnsAreLinear` | src/client/discovery.c:246-265 | between an Enable or Trigger taken off the queue and anything taken off later, a batch was begun and read, all deferred messages were dispatched and then the full send was made, or discovery was stopped or interrupted |
| `DiscoveryTrace.BatchIsRead` | src/client/client.c:472-496 | a batch that has begun is read before everything counts as settled |
| `Discovery.Client.AdoptCycle` | src/client/discovery.c:124-129 | a nested change joins the running cycle or opens one that can complete |
| `Discovery.Client.SetTargets` | src/client/discovery.c:145-171 | accepted exactly if not interrupted and the targets are the present ones or there is memory and room; what is accepted is what the queue will commit, at once when nothing is queued or running; nothing changes on rejection |
| `Discovery.Client.Change` | src/client/discovery.c:172-220 | an Enable or Trigger is accepted exactly with room in the queue and in the counter of owners, a Disable exactly with an owner to give up; keeps the owner balance unless nested, and nested exactly if there is room at every point of the queue |
| `Discovery.Client.BeginCycle` | src/client/discovery.c:240-273 | takes the queue up to the first Enable or Trigger, and only after the cycle of the previous one has sent |
| `Discovery.TurnIs` | src/client/discovery.c:248-265 | a turn ends with the first Enable or Trigger, or with the queue |
| `Discovery.Client.ApplyNext` | src/client/discovery.c:248-265 | applying a command keeps balance and desired targets, so the saturating decrement never saturates |
| `Discovery.Client.Defer` | src/client/client.c:411-425 | a message goes into one of 32 slots and holds back the update, or is dropped and counted |
| `Discovery.Client.Take` | src/client/client.c:189-201 | a message taken for dispatch still holds back the update |
| `Discovery.Client.Dispatched` | src/client/client.c:203-217 | a dispatched message no longer holds back the update |
| `Discovery.Client.Interrupt` | src/client/client.c:132-137 | stopping keeps all invariants and releases what was owed |
| `Discovery.Client.EndBatch` | src/client/client.c:492-496 | a batch ends with a new generation |
| `Discovery.Client.UpdateStart` | src/client/client.c:155-171 | an update starts only between batches, with nothing to dispatch, once per generation |
| `Discovery.Client.UpdateDiscovery` | src/client/discovery.c:346-373 | sends in full when due, otherwise a fast repetition, at most once per generation, with the next times exactly as drawn; an owed full send is made |
| `Discovery.Client.UpdateEnd` | src/client/discovery.c:287-300 | ends the cycle with nothing owed |
| `Discovery.Client.CycleCompletes` | src/client/client.c:155-180 | a running cycle is never stuck: its update is not refused as stale |
| `Discovery.Client.Stop` | src/client/discovery.c:64-76 | discards the context and its queue |
| `DiscoveryQueue.BalancedBelow` | src/client/discovery.c:194-215 | no point of the queue has more owners than the accepted ones plus one for each queued command |
| `DiscoveryRuns.Run` | src/client/discovery.c:137-373 | over every possible order of calls: desired targets as the queue commits them, one send per generation, one full and at most two fast sends per round and number, queued commands in their turns, each with its own batch read; without a nested Disable, balanced owners |
| `DiscoveryRuns.DrainQueue` | src/client/discovery.c:240-300 | after enough quiet cycles the queue is empty, the broadcast owners are the accepted ones and the targets are the desired ones |
| `DiscoveryRuns.EnablesTakeEffect` | src/client/discovery.c:172-300 | from a new client, any number of Enables up to the queue's capacity is accepted, and all become broadcast owners |
| `Discovery.NestedDisableUnbalances` | src/client/discovery.c:196-206 | a reachable state in which a nested Disable breaks the balance |
| `Streaming.RingPush` | src/client/streaming.c:101-106 | the ring of eight holds the most recently retired ids, also when its counter wraps |
| `Streaming.RingKnows` | src/client/streaming.c:155-158 | besides zero, the ring holds exactly the eight ids retired last |
| `Streaming.Client.Retire` | src/client/streaming.c:99-131 | gives up the launch and remembers its id |
| `Streaming.Client.Collides` | src/client/streaming.c:155-158 | an id collides exactly if it is zero or one of the eight retired last |
| `Streaming.Client.Request` | src/client/streaming.c:133-213 | keeps a waiting launch to the same host; otherwise, when nothing is missing, starts one exactly if some draw does not collide, under the first such draw; a rejection leaves no launch, or the old one when there was no memory for a state |
| `Streaming.Launch.SendCurrentRequest` | src/client/streaming.c:559-575 | records the attempt and sets the next time one or three seconds on; a failed send ends the launch and leaves the notice to the cleanup |
| `Streaming.Launch.Response` | src/client/streaming.c:222-319 | each reply's outcome and notice; nothing after the launch has ended |
| `Streaming.Launch.Exchange` | src/client/authorization.c:314-361 | a repeated key never derives again; three derivations, then exhaustion; the secret changes only on acceptance |
| `Streaming.Launch.Authorization` | src/client/streaming.c:610-643 | a grant resumes the launch, a refusal or exhaustion ends it with one notice |
| `Streaming.Launch.Proof` | src/client/streaming.c:325-368 | the secret is rotated at most once, to the given hash |
| `Streaming.Launch.Advance` | src/client/streaming.c:576-593 | when ready, at first or for a new generation, and due: one send, whose result it returns, and the next time set; nothing before that, within a generation, or after the end |
| `Streaming.Launch.Cleanup` | src/client/streaming.c:538-546 | reports a send failure, and then every ended launch has exactly one notice |
| `Streaming.Run` | src/client/streaming.c:222-643 | over every sequence of events, with anything else the client does in between: at most one notice, three derivations, one rotation; each event sends exactly what is due at its moment, never after a failure, and a timer never too soon |
| `HidReport.MaskCovers` | src/hid/report.c:141 | a mask has a bit for every byte of the report, and no byte too many |
| `HidReport.SetMaskBitAt` | src/hid/report.c:269 | setting a mask bit changes that bit only |
| `HidReport.PatchPicked` | src/hid/report.c:261-274 | decoding the mask and the changed bytes over the previous state gives the current one |
| `HidReport.ComputeDelta` | src/hid/report.c:261-274 | the mask marks exactly the changed bytes and the payload holds them in order |
| `HidReport.MessageAppend` | src/hid/report.c:104-116 | appending an item's data disturbs no other item |
| `HidReport.Holder.Stash` | src/hid/report.c:70-78 | the comparison state becomes this one, except for empty states |
| `HidReport.Holder.SameAsLastSent` | src/hid/report.c:82-90 | true exactly for the comparison state |
| `HidReport.Holder.AddFull` | src/hid/report.c:96-125 | drops only a repetition of the comparison state, and says exactly when the host still ends up right |
| `HidReport.Holder.ReplaceWithFullForced` | src/hid/report.c:127-131 | exactly one full report is queued and the host ends up with it |
| `HidReport.Holder.AddForcedFullMaskDelta` | src/hid/report.c:133-160 | a delta that any host state decodes to the current state |
| `HidReport.Holder.AddDelta` | src/hid/report.c:162-211 | full or delta by size; either way a host with the previous state ends up with the current one |
| `HidReport.Holder.GetMessage` | src/hid/report.c:213-235 | binds every item to its own data |
| `HidReport.Holder.ResetMessage` | src/hid/report.c:237-239 | consuming the batch changes neither what the host decodes nor the comparison state |
| `HidReport.Holder.ClearMessage` | src/hid/report.c:241-259 | empties the batch, promoting the pending state if asked |
| `HidRuns.Perform` | src/hid/report.c:96-259 | after one operation on a host that was right, it is right if and only if no other state's report was dropped as a repetition |
| `HidRuns.Run` | src/hid/report.c:96-259 | over every run with states of any length, the host is right after every operation if and only if every report dropped as a repetition repeats the most recent state |
| `HidRuns.NonemptyHarmless` | src/hid/report.c:82-90 | runs without empty states are always decoded right |
| `HidRuns.EmptyStateLosesTheNext` | src/hid/report.c:82-103 | a run with an empty state after which the host is wrong |
| `SampleQueue.Queue.Reserve` | src/session/network_stats.c:54-66 | makes room without changing the contents |
| `SampleQueue.Queue.Pop` | src/session/network_stats.c:70-73 | removes the oldest sample |
| `SampleQueue.Queue.Push` | src/session/network_stats.c:74-76 | appends a sample |
| `NetworkWindow.AgeTest` | src/session/network_stats.c:67-69 | what the wrapped age test says of a sample of any age |
| `NetworkWindow.TrimmedRecent` | src/session/network_stats.c:67-73 | after dropping, everything left is recent if and only if no retained sample's age has wrapped around into the window |
| `NetworkWindow.TrimmedSums` | src/session/network_stats.c:101-106 | only samples older than the window are dropped, so the window's sums stay |
| `NetworkWindow.PushExact` | src/session/network_stats.c:100-107 | a new sample completes the window exactly if nothing retained has lapsed |
| `NetworkWindow.MergeExact` | src/session/network_stats.c:97-98 | merging by the stamp is right exactly if nothing retained has lapsed |
| `NetworkWindow.SoonerNoLapse` | src/session/network_stats.c:67-69 | records that follow each other sooner than the clock wraps, less the window, never lapse |
| `NetworkStats.Packets.Record` | src/session/network_stats.c:94-112 | the queue stays the window of the history exactly if nothing retained has lapsed; then total and lost are the window's sums, through merging, growth and wrap-around |
| `NetworkStats.Pings.Record` | src/session/network_stats.c:119-130 | the same for the ping sum and the number of samples behind the mean |
| `NetworkStats.Bitrate.Record` | src/session/network_stats.c:77-93 | the queue stays the window exactly if nothing retained has lapsed; then a right byte total stays right if and only if what the dropped entries lost in 32 bits is a multiple of 2^64, which it is as long as every tick fits an int32 |
| `NetworkWindow.NarrowMerge` | src/session/network_stats.c:80-81 | a merged entry fits an int32 exactly if the bytes of its tick do |
| `NetworkWindow.NarrowLosses` | src/session/network_stats.c:85 | entries that fit an int32 are taken back without loss |
| `NetworkStats.OverflowMiscounts` | src/session/network_stats.c:77-93 | two large records at one tick, after whose expiry the byte total is wrong |
| `NetworkStats.LapsedMiscounts` | src/session/network_stats.c:94-112 | two records one turn of the clock apart, after which the total is wrong |
| `StreamClock.WireEstimate` | src/session/clock.c:49-51 | the words of a feedback give the estimated offset of its round trip |
| `StreamClock.MeanError` | src/session/clock.c:63-65 | the truncated mean errs by at most half of the longest round trip |
| `StreamClock.Clock.Feedback` | src/session/clock.c:25-69 | a reordered echo changes nothing; admission exactly for near-minimum round trips; the list holds all trips admitted in the last ten seconds with matching sums, and no others if and only if no retained trip has lapsed |
| `StreamClock.FreshIff` | src/session/clock.c:52-58 | after dropping, everything left is recent if and only if no retained trip's age has wrapped around into the ten seconds |
| `StreamClock.LapsedTripStays` | src/session/clock.c:52-58 | two feedbacks one turn of the clock apart, after which the old one is still in the mean |
| `StreamClock.Clock.TrackMinimum` | src/session/clock.c:40-45 | the minimum follows smaller round trips, and otherwise creeps up exactly when its update time has passed |
| `StreamClock.TracksStep` | src/session/clock.c:39-44 | the minimum is no less than the smallest round trip and no more than any, but for 65 ticks for each raise since |
| `StreamClock.CreepsExact` | src/session/clock.c:41 | on unwrapped clocks, the minimum is raised exactly if its update time has passed and no trip lowers it |
| `StreamClock.Clock.ReorderedExact` | src/session/clock.c:29 | on unwrapped clocks, an echo is reordered exactly if sent more than 130 ticks before the last |
| `StreamClock.Clock.Publish` | src/session/clock.c:48-65 | drops the stale samples, adds the new one and publishes their mean |
| `StreamClock.Clock.OffsetError` | src/session/clock.c:25-69 | the published offset is off by at most half of the longest retained round trip, rounded up |
| `StreamClock.Clock.RetryTicks` | src/session/clock.c:77-84 | between 81 and 4095 ticks, and five quarters of a round trip in between |
| `StreamClock.Clock.FeedbackTicks` | src/session/clock.c:107-115 | between 65 and 819 ticks, and a quarter of a round trip in between |
| `FrameStats.MatchesOrdered` | src/session/frame_stats.c:439-458 | the frames found are in frame order |
| `FrameStats.MatchesComplete` | src/session/frame_stats.c:439-458 | every frame of the range that sits in the ring is found |
| `FrameStats.MatchesBounded` | src/session/frame_stats.c:433-465 | never more frames than the ring has slots |
| `FrameStats.DrainedOnce` | src/session/frame_stats.c:451-455 | a drained frame is no longer found |
| `FrameStats.Aggregator.Drain` | src/session/frame_stats.c:433-465 | emits each matching slot once in frame order, closed as late at its own time if still pending, with its gaps, and clears it |
| `FrameStats.StartGapsChain` | src/session/frame_stats.c:186-192 | the start gaps of late frames in one report have no holes: each begins where the one before it ended |
| `FrameStats.DisplayAnchorStays` | src/session/frame_stats.c:200-203 | closing late frames leaves the display anchor alone |
| `FrameStats.ReportedFrame` | src/session/frame_stats.c:433-465 | a reported frame is its slot as it was or, if nothing had completed it, closed as late at the time of the drain |
| `FrameStats.DisplayGapsChain` | src/session/frame_stats.c:186-203 | a completed frame's display gap leads from the last frame displayed before it to its own completion |
| `FrameStats.Aggregator.RecordComplete` | src/session/frame_stats.c:180-211 | completes a pending frame once, with the gaps from the previous start and display, and moves those anchors; a displayed frame becomes the drain target |
| `FrameStats.Aggregator.ReportBegin` | src/session/frame_stats.c:475-502 | one report at a time, holding everything that was drained without truncation |
| `FrameStats.Aggregator.ReportFinish` | src/session/frame_stats.c:504-515 | only the matching token closes the report |
| `FrameStats.Aggregator.ReportAbandon` | src/session/frame_stats.c:517-528 | counts the unsent frames, saturating |
| `FrameStats.EncodeEvents` | src/session/frame_stats.c:105-121 | the delta-encoded event list decodes to the recorded events |

## Left out

- Sockets, threads, condition variables, platform code, logging and interface enumeration.
- Cryptography and key agreement: only their success and results appear, as parameters.
- Protobuf encoding and the filling of message fields; a message is the few values the state machines read.
- Floating-point outputs: bitrates, mean milliseconds, frame accumulators, and the conversion of a frame's gaps to milliseconds.
- The tick functions of the clock that work on float milliseconds, and the ping record inside a clock feedback, which is modelled on its own.
- Running out of memory while a list grows without a check in the source, and the fixed limit of the input report buffer.
- The CRC table: the checksum of an input report is an arbitrary function.
- A change of the report length in the middle of a run of input reports.
- The content of a discovery send: which targets and client ids it names.
- The explicit-interval discovery task, the list of unique client ids behind the targets, and the retry of broadcasts.
- The content and order of deferred messages: their ring appears as the numbers queued, dispatched and dropped.
- Reliable retransmission and the transport under a send: the outcome of each send attempt is a parameter, by number.
- Receive, decode and upload times of tracked frames, apart from the first receive time that expiry uses.
- The byte layout of shard buffers: a row-major buffer is a two-dimensional array.
- DiscoveryRandom.Generator.Draw: the number of rejected draws is bounded by a parameter, because termination depends on the generator's cycle.
- DiscoveryRuns.Run: the owner balance is stated for runs of fewer than 2^32 - 65 events, in which the counters cannot wrap.
- Streaming.Client.Request: the draws are given as a finite sequence, because termination depends on the random source.
- StreamClock.Clock.Feedback: the number of retained samples stays below 2^32.
- Streaming.Launch.SendCurrentRequest: one reading of the clock serves the due test and the time of the next send.
- StreamClock.TracksStep: the bound on the minimum is carried by `Clock.Tracked` as long as the raises have not taken it beyond 32 bits.
