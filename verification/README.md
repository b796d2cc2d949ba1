# Robot kernel: verified models

Dafny models of the robot kernel's self-contained cores and of two of its host tools, with proofs
about all their inputs and runs. `dafny verify dfyconfig.toml` checks everything.

## The parts

| files | what they model |
|---|---|
| `Bitwise`, `Bytes`, `Integers` | bytes as bits, integer encodings, Rust's truncating division, wrapping casts and counters |
| `Crc8`, `BrainProtocol`, `FrameScanner` | CRC-8, packet framing, the resynchronising frame scanner; framing and scanning are proved for every two-byte length codec and check function and then used with the kernel's |
| `AuthEnvelope`, `AuthLink` | HMAC, the envelope format, key installation, `wrap`, `unwrap_consuming`, link policy |
| `Draining`, `ReceivePath`, `Receives` | the loop that drains coalesced envelopes, the path from received bytes to dispatched packets, and many receives in sequence with several streams |
| `SendPath` | what `wrap` puts on the wire as the peer sees it, and the link policy in both directions |
| `WireFormats` | the byte layouts of packets, envelopes, stream frames and log files, with their numbers |
| `LinkRuns` | whole runs of the link with any number of harts, step by atomic step |
| `TxnRollback`, `Watchdog` | the restart budget of the control tick, and the heartbeat-gated watchdog feed |
| `SlamGrid` | the occupancy grid and its Bresenham rays |
| `Ahrs`, `Attitude` | integer attitude estimation; which sensor moves which angle, and where the angles settle |
| `Tftp` | the TFTP sender against an RFC 1350 receiver on a lossy network |
| `Logger`, `LogPacing`, `LogRotation`, `LoggerRaces` | the log ring, flushing and rotation; what the tick is for; what failed rotations lose; the logger on several harts, lock by lock |
| `Pmp` | the memory protection policy against the hardware's lookup |
| `Habits`, `OfflinePatrol` | the habit table, and the offline patrol with its angle arithmetic |

State that the kernel updates in place is a class whose methods are proved against functions on
values (`Step`, `Flush`, `Record`, ...). What the kernel promises is then proved about those
functions, mostly over all event sequences.

## Conventions

- The release profile keeps overflow checks on, so a checked operation that overflows panics and
  the kernel stops. Such an outcome is `None`, `Abort` or a false result. `as` casts and
  `fetch_add` wrap silently and are modelled as wrapping.
- SHA-256 is an arbitrary function with 32-byte results. The encrypted layer is an arbitrary
  decoder that consumes a prefix; `CarriedBy` says what is asked of it. For agreement with the
  brain, `LinkRuns` idealises the MAC: a tag that verifies was computed before by a key holder over the
  same bytes (`NoForgery`). The replay defence is proved without that. The brain's nonces are taken to
  increase.
- Clock, storage results, replies from the network and sensor readings are parameters.
- RFC 1350 does not say how block numbers continue after 65535; the receiver wraps them, as the
  sender does. Replies come from the receiver or are no acknowledgements; the sender itself does
  not look at their origin.

## Where the code does not do what its comments say

- Of a multiplexed receive only the first frame is read, although each receive is meant to be
  drained: control packets behind another control frame, or behind a camera or lidar frame, are
  dropped (`MultiStreamReadsFirstFrameOnly`; one frame per receive loses nothing,
  `ApartAllDispatched`).
- Behind a stale envelope the rest of the receive is dropped, fresh envelopes included
  (`StaleEnvelopeHidesRest`, `EndToEndIff`).
- The scanner recovers from torn and corrupt parts exactly when no frame parses at an offset of them
  (`AcceptsGoodIff`, `PassesOverIff`, `ResyncAfterGarbage`). That can fail: for every frame there is a
  torn-off header that swallows it (`TornHeaderSwallows`).
- The restart budget is checked and incremented in two steps. That is harmless while one task pinned
  to hart 0 arms (kernel/src/main.rs:1621-1622): the documented eight hold (`PinnedBudget`). Each
  further arming hart would add one (`RacyBudget`, `RacyBudgetAttained`).
- A heartbeat that wraps to zero and stops there is fed for ever (`StoppedHeartbeatStarves`).
- The occupied-cell counter drifts when a cell at 148 or above is freed (`CounterExactIff`).
- Pitch from the accelerometer leaves its documented range when the magnitude does not fit 31 bits
  (`AccelPitchBoundedIff`, `AccelPitchEscapes`). An ordinate of zero counts as one, so the angle on the
  x-axis is off exactly up to an abscissa of 1000 (`Atan2OnAxis`), and the diagonal reads 35.15 degrees
  (`Atan2Reflection`); in the patrol it reads 36 (`Atan2OnRays`).
- A TFTP file of more than 65536 blocks can be reported done without being delivered
  (`DoneMeansDeliveredIff`).
- A rotation that fails to open the next file loses every later record until shutdown
  (`NothingLostIff`, `FailedRotationIsSticky`, `RotationCanFail`).
- Two flushes at once can write the newer batch first (`OverlapReorders`). The disk is in order exactly
  when nothing newer was on disk at any write (`InOrderIff`), in particular without overlap
  (`DiskInOrder`).
- A push that tested the flag before a shutdown leaves its record in the ring of the inactive logger
  (`QueuedAfterStop`). The ring stays empty exactly when no hart was mid-push (`QueuedInactiveIff`).
- The device window is not read-write as the policy table says (`DeviceWindowWritableIff`).
- `habit_record` matches on the sequence, not on the trigger as its comment says
  (`MatchedBySequence`, `TriggerDoesNotMatter`), and the trigger `never` fires always
  (`NeverAlwaysFires`).
- `wrap_cdeg` returns angles in (-18000, 18000], not [-18000, 18000) (`WrappedBelowIff`).
- The patrol reckons its position from the present heading and the whole distance driven, so turning
  moves the reckoned position and can increase the heading error (`TurnHelpsIff`, `TurningCanHurt`).

## Model

| member | source | states |
|---|---|---|
| `Crc8.Compute` | crates/behavior/src/brain_protocol.rs:292-305 | the nested loops compute the polynomial-0x31 remainder register folded over the bytes |
| `WireFormats.Generator` | crates/behavior/src/brain_protocol.rs:292-305 | the check value of a single one bit is 0x31, which with linearity fixes every check value |
| `Crc8.CrcIsLinear` | crates/behavior/src/brain_protocol.rs:292-305 | the register step is XOR-linear, with zero as its unit, so the CRC of a sum of equal-length inputs is the sum of the CRCs |
| `Crc8.CrcShiftInjective` | crates/behavior/src/brain_protocol.rs:296-302 | eight shifts of the register are a bijection on bytes |
| `Crc8.BurstHasNonZeroCrc` | crates/behavior/src/brain_protocol.rs:292-305 | every non-zero burst of at most eight consecutive bits, at any bit offset of any message, has a non-zero CRC |
| `BrainProtocol.BuildPacket` | crates/behavior/src/brain_protocol.rs:313-328 | the buffer holds exactly the frame of the packet; bytes behind it are untouched |
| `WireFormats.FrameLayout` | crates/behavior/src/brain_protocol.rs:313-328 | every frame is 0x42 0x52, type, length low and high, payload and the CRC-8 of all before it |
| `BrainProtocol.ParseOfFrame` | crates/behavior/src/brain_protocol.rs:313-348 | whatever follows it, a frame parses back to its packet and its own length |
| `BrainProtocol.ParseSound` | crates/behavior/src/brain_protocol.rs:336-348 | whatever parses is byte for byte the frame of the packet read from it |
| `BrainProtocol.ParseRecoversIff` | crates/behavior/src/brain_protocol.rs:313-348 | a packet is recovered from its frame if and only if the payload is below 65536 bytes |
| `BrainProtocol.CorruptionUnnoticedIff` | crates/behavior/src/brain_protocol.rs:336-348 | flipped bits outside magic and length pass the parser if and only if the CRC of the flips alone is zero |
| `BrainProtocol.BurstRejected` | crates/behavior/src/brain_protocol.rs:292-348 | every burst of at most eight bits that leaves the length field intact is rejected, for every frame |
| `Crc8.CrcKeepsParity` | crates/behavior/src/brain_protocol.rs:292-305 | the check value has odd weight exactly when the data has |
| `BrainProtocol.OddErrorRejected` | crates/behavior/src/brain_protocol.rs:292-348 | every error of odd weight that leaves the length field intact is rejected, for every frame |
| `BrainProtocol.TornHeaderSwallowsIff` | crates/behavior/src/brain_protocol.rs:336-348 | a torn-off header claiming the frame behind it parses over that frame if and only if the header's own check value is zero |
| `Scanning.ScanIsGreedy` | kernel/src/main.rs:3876-3904 | the scanner that tries every offset finds spans that are in bounds, disjoint and ordered, and misses no frame outside them |
| `Scanning.GreedyIsScan` | kernel/src/main.rs:3876-3904 | being greedy determines the spans: any list with that property is the scanner's |
| `Scanning.ExactIff` | kernel/src/main.rs:3876-3904 | for any mixture of items and garbage the scanner finds exactly the items, each where it lies, if and only if none starts at an offset of the garbage |
| `FrameScanning.FindMagic` | kernel/src/main.rs:3893-3898 | finds the first magic pair at or after an offset, or shows there is none |
| `FrameScanning.Advance` | kernel/src/main.rs:3889-3904 | each turn strictly advances the cursor and loses nothing the reference scanner would accept |
| `FrameScanning.Scan` | kernel/src/main.rs:3874-3904 | the skip-to-next-magic loop accepts exactly what the scanner trying every offset accepts |
| `FrameScanning.AcceptedAreFrames` | kernel/src/main.rs:3876-3904 | every accepted span is in bounds and is the frame of the packet dispatched from it |
| `FrameScanner.CoalescedFramesAllDispatched` | kernel/src/main.rs:3876-3904 | the packets of any list of glued frames are dispatched once each and in order |
| `FrameScanner.AllDispatchedIff` | kernel/src/main.rs:3876-3904 | of the leading bytes of a run of frames all packets are dispatched if and only if no byte is missing |
| `FrameScanner.AcceptsGoodIff` | kernel/src/main.rs:3876-3904 | for any mixture of frames and torn or corrupt parts the scanner accepts exactly the frames if and only if no frame parses at an offset of those parts; then exactly their packets are dispatched, in order |
| `FrameScanner.PassesOverIff` | kernel/src/main.rs:3885-3900 | in every buffer the scan is the same with and without the first n bytes if and only if no frame parses at an offset of them |
| `FrameScanner.ResyncAfterGarbage` | kernel/src/main.rs:3877-3900 | frames, then a torn or corrupt part in which nothing parses, then frames: all are dispatched |
| `FrameScanner.ResyncWithoutMagic` | kernel/src/main.rs:3889-3900 | in particular garbage without the first magic byte costs no frame |
| `FrameScanner.TornHeaderSwallows` | kernel/src/main.rs:3885-3904 | for every frame there is a torn-off header in front of which it is dispatched as part of one wrong packet, and only it is lost |
| `FrameScanner.DispatchedFitsBuffer` | kernel/src/main.rs:3876-3904 | the frames of all dispatched packets together are no longer than the buffer |
| `AuthLink.AuthEnvelope.Init` | crates/behavior/src/auth_envelope.rs:347-380 | a 32-byte key is installed with both padded key blocks, the mark at zero and the send nonce at the clock; any other key changes nothing |
| `AuthLink.AuthEnvelope.HmacPrecomputed` | crates/behavior/src/auth_envelope.rs:113-130 | the precomputed-block MAC of the parts equals the HMAC of section 2 of RFC 2104 on their concatenation |
| `AuthLink.AuthEnvelope.AnnounceDenial` | crates/behavior/src/auth_envelope.rs:307-321 | each refusal is printed the first time and never again until reset |
| `AuthLink.AuthEnvelope.ResetDenialAnnouncements` | crates/behavior/src/auth_envelope.rs:337-339 | after a reset nothing counts as printed |
| `AuthLink.AuthEnvelope.Wrap` | crates/behavior/src/auth_envelope.rs:415-456 | the output buffer and the send nonce are those of the sealing function in every mode; the rest of the buffer is untouched |
| `AuthLink.AuthEnvelope.TagMatches` | crates/behavior/src/auth_envelope.rs:525-528 | the tag check is on label, nonce, length and packet in that order |
| `AuthLink.AuthEnvelope.OpenFrame` | crates/behavior/src/auth_envelope.rs:513-528 | length checks and tag check together are the opening function |
| `AuthLink.AuthEnvelope.AcceptFrame` | crates/behavior/src/auth_envelope.rs:513-571 | mark and packet after tag and replay check are those of the accepting function |
| `AuthLink.AuthEnvelope.UnwrapPermitted` | crates/behavior/src/auth_envelope.rs:508-576 | behind the policy check, keyed or not, mark, stored packet and bytes consumed are those of the accepting function |
| `AuthLink.AuthEnvelope.UnwrapConsuming` | crates/behavior/src/auth_envelope.rs:490-576 | mark, packet stored in place and bytes consumed are those of the accepting function in every mode; bytes before the target are untouched |
| `Envelope.OpenOfSeal` | crates/behavior/src/auth_envelope.rs:439-456 | a sealed packet opens, whatever is glued behind it, exactly when there is room for it |
| `Envelope.OpenSound` | crates/behavior/src/auth_envelope.rs:513-528 | whatever opens is byte for byte a seal for the receive direction |
| `Envelope.TornDoesNotOpen` | crates/behavior/src/auth_envelope.rs:513-520 | no proper prefix of an envelope opens |
| `Envelope.MacInputInjective` | crates/behavior/src/auth_envelope.rs:442-449 | the authenticated bytes determine direction, nonce, length and packet |
| `WireFormats.EnvelopeLayout` | crates/behavior/src/auth_envelope.rs:439-456 | every envelope is the big-endian nonce, 16 bytes of the MAC over label, nonce, length and packet, the little-endian length, the packet |
| `WireFormats.Labels` | crates/behavior/src/auth_envelope.rs:87-95 | the labels are C2S and S2C and the pads those of RFC 2104 |
| `ReceivePath.OneTurn` | kernel/src/main.rs:3841-3861 | one turn of the drain loop on the real buffers is the decoder's turn, encrypted layer or not |
| `ReceivePath.Pump` | kernel/src/main.rs:3840-3868 | the loop body either completes the drain or advances the cursor so that the rest completes it |
| `ReceivePath.Drain` | kernel/src/main.rs:3837-3869 | the drain loop collects exactly what the abstract loop over the decoder collects, and leaves the link in its state |
| `ReceivePath.Receive` | kernel/src/main.rs:3800-3904 | from raw bytes to dispatched packets: demultiplex, drain, scan |
| `ReceivePath.DrainCollectsFreshThatFit` | kernel/src/main.rs:3840-3868 | of any envelopes glued together, with any nonces and any undecodable remainder behind, the longest run whose nonces increase above the mark and which fits is collected, in order, and the mark is left at the last of them |
| `ReceivePath.DrainLosesNothingIff` | kernel/src/main.rs:3840-3868 | nothing is lost in the drain if and only if the packets fit the buffer together and none lies behind the fresh ones |
| `ReceivePath.EndToEndIff` | kernel/src/main.rs:3837-3904 | for every packet list, every cut into envelopes, all nonces and every gluing, exactly those packets are dispatched in order if and only if they fit the buffer and no part of them lies behind the envelopes with increasing nonces |
| `ReceivePath.EndToEnd` | kernel/src/main.rs:3791-3904 | with the kernel's buffer sizes room is never the reason: all packets of a receive are dispatched if and only if none lies behind the fresh ones |
| `ReceivePath.EnvelopePerPacket` | kernel/src/main.rs:3837-3904 | for every packet list sent one envelope per packet, all are dispatched in order if and only if they fit the buffer |
| `ReceivePath.TornUndecodable` | crates/behavior/src/auth_envelope.rs:513-520 | an envelope torn by the end of the receive is an undecodable remainder, encrypted layer or not |
| `ReceivePath.PlaintextEndToEnd` | crates/behavior/src/auth_envelope.rs:508-512 | an unkeyed, unenforced link dispatches exactly the glued frames |
| `SendPath.PolicyForbids` | crates/behavior/src/auth_envelope.rs:268-285 | with the policy compiled in, a link without a key or without an encrypted session neither sends nor accepts nor dispatches anything, and its state does not move |
| `SendPath.AcceptedIffPermitted` | crates/behavior/src/auth_envelope.rs:490-576 | on a keyed link a fresh packet that fits is accepted if and only if the policy is off or a session is up |
| `SendPath.PlainIffUnenforced` | crates/behavior/src/auth_envelope.rs:426-430 | without a key bytes pass unchanged in both directions if and only if the policy is off |
| `SendPath.SentIsKernelSeal` | crates/behavior/src/auth_envelope.rs:415-456 | a successful `wrap` leaves the counter the atomic seal step leaves and its bytes open, under the kernel's label, to the message that step logs; what cannot be sent uses up no nonce |
| `SendPath.WrapsArrive` | crates/behavior/src/auth_envelope.rs:415-456 | whatever packets are wrapped one after the other, a peer with a strictly increasing mark gets exactly those that can be sent, in order, with consecutive nonces above the counter |
| `ReceivePath.StaleEnvelopeHidesRest` | kernel/src/main.rs:3853-3861 | a stale envelope in front, encrypted or not, ends the drain: everything glued behind it is dropped and no nonce is used up |
| `Receives.SentIsDispatched` | kernel/src/main.rs:3800-3904 | on plain, keyed and encrypted links one receive of freshly sent packets dispatches exactly them and moves the mark behind them |
| `Receives.ReceivesDispatchAll` | kernel/src/main.rs:3800-3904 | over any number of receives every packet sent is dispatched, once and in order |
| `Receives.DemuxOfFrame` | kernel/src/main.rs:3806-3817 | the bytes kept of a receive are the payload of its first multiplexed frame if that is control, else none |
| `WireFormats.MuxLayout` | crates/multi-stream/src/lib.rs:95-111 | a stream frame is the stream id, the little-endian length and the payload; control is stream 0 |
| `Receives.ApartAllDispatched` | kernel/src/main.rs:3800-3904 | with multiplexing and one frame per receive, over any number of receives all control packets are dispatched, once and in order |
| `Receives.MultiStreamReadsFirstFrameOnly` | kernel/src/main.rs:3806-3817 | any list of multiplexed frames glued into one receive dispatches what the first one carries; all control packets are dispatched if and only if none lies behind the first frame |
| `LinkRuns.StepKeeps` | crates/behavior/src/auth_envelope.rs:415-576 | every atomic step of brain, kernel and any hart keeps replay defence and send counter, whatever tags verify |
| `LinkRuns.StepKeepsGenuine` | crates/behavior/src/auth_envelope.rs:415-576 | every step without a forged tag keeps all claims packets of the brain |
| `LinkRuns.NoReplay` | crates/behavior/src/auth_envelope.rs:566-571 | in every interleaving, whatever tags verify, the mark is the largest nonce claimed, accepted nonces strictly increase in `fetch_max` order and none is accepted twice |
| `LinkRuns.AcceptedIffRecord` | crates/behavior/src/auth_envelope.rs:569-570 | in every interleaving a claim no hart still holds was accepted if and only if its nonce exceeded all claimed before it |
| `LinkRuns.Agreement` | crates/behavior/src/auth_envelope.rs:513-576 | accepted packets are distinct brain packets in the order the brain sealed them |
| `LinkRuns.AcceptedIsFromBrain` | crates/behavior/src/auth_envelope.rs:442-446 | every accepted packet was sealed by the brain with that nonce, never one the kernel sealed |
| `LinkRuns.SoloIsAccept` | crates/behavior/src/auth_envelope.rs:490-576 | uninterrupted, the atomic steps amount to the sequential `unwrap_consuming` |
| `LinkRuns.SentNoncesRepeatIff` | crates/behavior/src/auth_envelope.rs:439 | two sent nonces are equal if and only if a multiple of 2^64 sends lies between them |
| `TxnRollback.Transactions.ArmSlot` | kernel/src/main.rs:4679-4689 | arming stores the checkpoint of harts below 8 when the feature is on, and changes nothing else |
| `TxnRollback.Transactions.TryRollback` | kernel/src/main.rs:4721-4754 | the whole new state and the rewritten trap frame, or a decline that changes nothing |
| `TxnRollback.Transactions.NoteTickComplete` | kernel/src/main.rs:4761-4772 | a completed tick clears the streak only |
| `TxnRollback.StreakTellsRollbacks` | kernel/src/main.rs:4664-4675 | after every history the streak is the number of rollbacks since the last completed tick, at most 8 |
| `TxnRollback.EveryRollbackStopsTheMotors` | kernel/src/main.rs:4740-4746 | over every history exactly the rollbacks published motor commands, all zero |
| `TxnRollback.AbortsCountRollbacks` | kernel/src/main.rs:4742 | the lifetime counter is the number of rollbacks modulo 2^32 |
| `TxnRollback.SlotTellsCheckpoint` | kernel/src/main.rs:4684-4688 | a slot holds the checkpoint its hart armed last, unless spent by a rollback since |
| `TxnRollback.RolledBackIff` | kernel/src/main.rs:4721-4754 | after every history a fault is rolled back if and only if its cause is 4 or 6, its hart is below 8 and has an unspent checkpoint, and fewer than 8 rollbacks lie behind the last tick; it resumes at that checkpoint, and every other fault changes nothing |
| `TxnRollback.DisabledIsInert` | kernel/src/main.rs:4722-4724 | with the feature off no history rolls anything back |
| `TxnRollback.RecurringFaultIsFatal` | kernel/src/main.rs:4732-4739 | a fault recurring before any tick completes is rolled back up to the eighth time in all and declined from then on |
| `TxnRaces.RacyBudget` | kernel/src/main.rs:4679-4741 | with arming, load, increment and clear interleaved in any way, at most 7 plus the number of harts that ever arm rollbacks happen between completed ticks |
| `TxnRaces.PinnedBudget` | kernel/src/main.rs:4729-4741 | while only hart 0 arms, as the pinned control task does, at most the documented eight happen in every interleaving |
| `TxnRaces.RacyBudgetAttained` | kernel/src/main.rs:4737-4741 | the bound is attained for every number of arming harts from one to eight |
| `Watchdog.WatchdogFeed.OnTimer` | kernel/src/main.rs:5113-5125 | only hart 0 feeds, and the feeder's memory and outcome follow the tick function |
| `Watchdog.FedIff` | kernel/src/main.rs:5113-5125 | in every run a tick kicks if and only if the heartbeat is zero or has stood still for at most 40 ticks |
| `Watchdog.StoppedHeartbeatStarves` | kernel/src/main.rs:5115-5122 | after the heartbeat moves to `v` and stops, tick `n` kicks if and only if `n <= 40` or `v` is zero; at zero for ever |
| `Watchdog.FedBeforeFirstBeat` | kernel/src/main.rs:5119 | before the first heartbeat every tick kicks |
| `Watchdog.LivelyIsAlwaysFed` | kernel/src/main.rs:5113-5125 | if every 41 consecutive ticks contain an advance, every tick kicks |
| `Watchdog.LongStallAborts` | kernel/src/main.rs:5120 | the tick completing a stall of 2^32 overflows the checked addition |
| `Watchdog.AdvanceObservedIff` | kernel/src/main.rs:4869 | a tick sees an advance if and only if the iterations since the last tick are no multiple of 2^32 |
| `Watchdog.BeatenIs` | kernel/src/main.rs:4869 | k iterations of the control task raise the heartbeat by k modulo 2^32 |
| `SlamGrid.OccupancyGrid.MarkFree` | tools/slam_server.py:185-194 | cell and counter after freeing, in and out of bounds |
| `SlamGrid.OccupancyGrid.MarkOccupied` | tools/slam_server.py:196-204 | cell and counter after marking occupied, in and out of bounds |
| `SlamGrid.OccupancyGrid.ClearLine` | tools/slam_server.py:206-226 | terminates for all endpoints after exactly max(dx, dy) moves, having applied the marks of the closed-form ray in order |
| `SlamGrid.Move` | tools/slam_server.py:220-226 | the two tests of the loop body move to the next point of the closed-form ray |
| `Ray.ErrorTermDecides` | tools/slam_server.py:220-226 | the error term's two tests hold exactly when the closed-form coordinates step |
| `Ray.RayEnds` | tools/slam_server.py:216 | the ray is at its end exactly after the last move |
| `Ray.RayMoves` | tools/slam_server.py:221-226 | each move changes each coordinate by at most one, toward the goal, and the longer one always |
| `Ray.RayInBox` | tools/slam_server.py:206-226 | every visited cell is in the bounding box of the endpoints |
| `Ray.RayNearLine` | tools/slam_server.py:206-226 | every visited cell is within half a cell of the ideal line |
| `Ray.RayDistinct` | tools/slam_server.py:206-226 | no cell is visited twice |
| `SlamGrid.RayEffect` | tools/slam_server.py:206-226 | the endpoint gains 40 up to 255, each other visited cell loses 20 once down to 1, all others keep their value |
| `SlamGrid.FreshRay` | tools/slam_server.py:206-226 | on a fresh map of any size a ray leaves 1 in every cell it passes, 40 in the one it ends in and 0 everywhere else |
| `SlamGrid.UnknownIff` | tools/slam_server.py:185-204 | over every run of marks a cell reads 0 if and only if it was never marked, and stays within [0, 255] |
| `SlamGrid.HitsAddUp` | tools/slam_server.py:196-204 | k hits add 40 each, up to 255 |
| `SlamGrid.MissesAddUp` | tools/slam_server.py:185-194 | k misses take off 20 each, down to 1 |
| `SlamGrid.CounterIsRealLessDrift` | tools/slam_server.py:185-204 | over every run the counter is the real number of occupied cells less the number of frees of cells at 148 or above |
| `SlamGrid.CounterExactIff` | tools/slam_server.py:190-194 | the counter is exact if and only if no mark freed a cell at 148 or above |
| `SlamGrid.CounterDrifts` | tools/slam_server.py:190-194 | a concrete run after which the counter is wrong |
| `Ahrs.Isqrt` | crates/ahrs/src/lib.rs:251-260 | the Babylonian loop terminates with the floor of the square root |
| `Ahrs.NewtonFits` | crates/ahrs/src/lib.rs:254-257 | no sum in the loop exceeds `n + 1`, so only 2^64 - 1 overflows |
| `Ahrs.Atan2InRange` | crates/ahrs/src/lib.rs:203-248 | the angle is within half a turn, and within a right angle for non-negative x |
| `Ahrs.Atan2Symmetry` | crates/ahrs/src/lib.rs:236-247 | mirror symmetry in both axes for points off the axes |
| `Ahrs.Atan2Reflection` | crates/ahrs/src/lib.rs:214-234 | swapping coordinates reflects about the diagonal if and only if the point is off it; on it the two angles sum to 7030 |
| `Ahrs.Atan2OnAxis` | crates/ahrs/src/lib.rs:207-234 | on the x-axis the angle is exact if and only if the abscissa exceeds 1000; at one g it is off by 4, at one by 3515 |
| `Ahrs.RemembersLatest` | crates/ahrs/src/lib.rs:105-120 | after every run the filter holds the latest course given with a fix above 1 m/s and the latest reference pressure |
| `Ahrs.AhrsState.RunUpdate` | crates/ahrs/src/lib.rs:129-197 | state and attitude after an update, and exactly when checked arithmetic panics |
| `Ahrs.AccelPitchBoundedIff` | crates/ahrs/src/lib.rs:141-142 | accelerometer pitch is within 9000 if and only if the squares sum to less than 2^62 |
| `Ahrs.AccelPitchEscapes` | crates/ahrs/src/lib.rs:141-142 | a reading for which accelerometer pitch is a straight angle |
| `Ahrs.FilterKeepsBound` | crates/ahrs/src/lib.rs:155-159 | one filter step keeps `limit + 49 D`, without overflow for D up to 43458 |
| `Ahrs.FilterSafeIff` | crates/ahrs/src/lib.rs:155-159 | within that bound no step overflows if and only if D is at most 43458 |
| `Ahrs.FilterContracts` | crates/ahrs/src/lib.rs:155-159 | each step keeps 98 percent of the distance to the accelerometer angle, up to rounding |
| `Ahrs.RunIsBounded` | crates/ahrs/src/lib.rs:129-159 | over every run with gyro steps up to D, roll magnitude <= 18000 + 49 D and pitch magnitude <= 9000 + 49 D |
| `Ahrs.RunNeverPanics` | crates/ahrs/src/lib.rs:129-187 | no run with gyro steps up to 43458, moderate yaw steps and pressures overflows |
| `Attitude.AxesApart` | crates/ahrs/src/lib.rs:129-181 | over every two runs roll depends on gx, ay, az only, pitch on gy and the accelerations only, yaw on gz and the course only |
| `Attitude.FasterTurnsFurther` | crates/ahrs/src/lib.rs:144-159 | over every two runs a larger gx never lowers roll and a larger gy never lowers pitch |
| `Attitude.RollOnly` | crates/ahrs/src/lib.rs:149-159 | from level, ten degrees about gx give roll 980 and nothing else |
| `Attitude.PitchOnly` | crates/ahrs/src/lib.rs:149-159 | from level, ten degrees about gy give pitch 980 and nothing else |
| `Attitude.YawOnly` | crates/ahrs/src/lib.rs:161-165 | from level, ten degrees about gz give yaw 1000 and nothing else |
| `Attitude.FullTilt` | crates/ahrs/src/lib.rs:136-142 | on its side or nose the accelerometer angles are right angles with the sign of the acceleration |
| `Attitude.YawAddsUp` | crates/ahrs/src/lib.rs:161-181 | without a course yaw is the sum of the gyro steps modulo one turn |
| `Attitude.AttitudeSettles` | crates/ahrs/src/lib.rs:155-159 | with constant accelerations and the gyro at rest roll and pitch never move away from the accelerometer angles and are within half a degree from the 500th reading on |
| `Ahrs.AltitudeLaws` | crates/ahrs/src/lib.rs:184-187 | altitude is zero at the reference, antisymmetric and 8.3 cm per pascal up to rounding |
| `Ahrs.YawInRange` | crates/ahrs/src/lib.rs:161-181 | yaw stays in [0, 36000) over every run, for every course |
| `Ahrs.FusionClosesIn` | crates/ahrs/src/lib.rs:167-177 | for a course in [0, 36000) each fusion takes off exactly a twentieth of the circular distance, rounded down |
| `Ahrs.HeadingSettles` | crates/ahrs/src/lib.rs:161-181 | with the gyro at rest and an unchanging course, whatever fixes and references come between, the distance never grows and is below 20 from the 200th reading on |
| `TftpSender.HandleTransfer` | scripts/tftp_serve.py:136-168 | the loops send the packets of the sender machine and end as it ends, within five sends per block |
| `TftpSender.SendBlock` | scripts/tftp_serve.py:148-162 | one block is sent until acknowledged, at most five times |
| `TftpSender.GivesUpAfterFive` | scripts/tftp_serve.py:148-162 | without the acknowledgement of its block number a block is sent five times, no more and no fewer, and then given up |
| `TftpSender.AckMovesOn` | scripts/tftp_serve.py:151-168 | the acknowledgement of the block number moves on to the next block or ends the transfer |
| `TftpSender.AckRoundTrip` | scripts/tftp_serve.py:151-157 | an acknowledgement reads back as its block number whatever follows |
| `TftpSender.DataRoundTrip` | scripts/tftp_serve.py:143-145 | a data packet carries its number and chunk |
| `TftpTransfer.TransferIsCorrect` | scripts/tftp_serve.py:136-168 | for at most 65536 blocks, on every lossy, duplicating, reordering schedule: the receiver holds a prefix, done means the whole file in len/512+1 blocks, at most five sends per block |
| `TftpTransfer.LongFileFails` | scripts/tftp_serve.py:165-168 | for every longer file a schedule exists on which the sender is done and the receiver is not |
| `TftpTransfer.DoneMeansDeliveredIff` | scripts/tftp_serve.py:136-168 | done means delivered on every schedule if and only if the file has at most 65536 blocks |
| `LogFormat.RecordRoundTrip` | crates/behavior/src/logger.rs:76-92 | decoding an encoded record gives it back |
| `LogFormat.FileRoundTrip` | crates/behavior/src/logger.rs:62-92 | a file reads back as exactly its records in order, even with a torn record behind |
| `WireFormats.RecordLayout` | crates/behavior/src/logger.rs:76-83 | a record is the little-endian time, kind, flags, two zero bytes and 20 bytes of payload |
| `WireFormats.HeaderLayout` | crates/behavior/src/logger.rs:454-459 | a file starts with its magic, version 1, two zero bytes and the time it was opened |
| `WireFormats.LogMagic` | crates/behavior/src/logger.rs:187 | the magic is RBL1 |
| `LogRing.Ring.Push` | crates/behavior/src/logger.rs:118-129 | the ring is a 128-entry queue that drops its oldest entry when full and says so |
| `LogRing.Ring.DrainInto` | crates/behavior/src/logger.rs:131-139 | the oldest records move to the output in order; the rest of the output is untouched |
| `Logger.EncodeBatch` | crates/behavior/src/logger.rs:242-249 | the loop encodes the batch back to back |
| `Logger.MissionLogger.OpenLogFile` | crates/behavior/src/logger.rs:447-472 | a new file holds exactly its header; a failed open keeps what was there |
| `Logger.MissionLogger.Init` | crates/behavior/src/logger.rs:200-213 | idempotent; activates only when the file opens |
| `Logger.MissionLogger.PushEvent` | crates/behavior/src/logger.rs:422-429 | events enter the ring only while active, drops are counted |
| `Logger.MissionLogger.Append` | crates/behavior/src/logger.rs:260-280 | the bytes of the open file become header and all records including the batch; at the threshold the file is closed and the next opened |
| `Logger.MissionLogger.Store` | crates/behavior/src/logger.rs:251-270 | without an open file, or on a failed write, the batch is lost and counted as an error |
| `Logger.MissionLogger.RunFlush` | crates/behavior/src/logger.rs:236-283 | the whole state after a flush and the number of records reported |
| `Logger.MissionLogger.RunTick` | crates/behavior/src/logger.rs:228-232 | flushes only when active and at the watermark |
| `Logger.MissionLogger.Stop` | crates/behavior/src/logger.rs:216-224 | flushes, then closes the file |
| `Logger.EveryRecordAccounted` | crates/behavior/src/logger.rs:118-283 | over every run of operations one after the other the ring is the newest part of what was pushed, every older record has one fate, exactly the written ones are on disk in order, and no file exceeds the threshold by a full batch |
| `Logger.Conservation` | crates/behavior/src/logger.rs:118-283 | over every run of operations one after the other: pushed = in the ring + dropped + on disk + lost in failed flushes |
| `Logger.FilesReadBack` | crates/behavior/src/logger.rs:76-92 | over every run each file's bytes parse to exactly the records written to it |
| `Logger.DropCounter` | crates/behavior/src/logger.rs:425-428 | the drop counter is the number of dropped records modulo 2^32 |
| `LogRotation.ErrorCounter` | crates/behavior/src/logger.rs:251-270 | the error counter is the number of flushes that lost their records, modulo 2^32 |
| `LogRotation.OneFilePerOpen` | crates/behavior/src/logger.rs:447-472 | over every run there is one file on disk per successful open, in order, stamped with its time |
| `LogPacing.PacedDropsNothing` | crates/behavior/src/logger.rs:228-232 | in every run with at most 65 records before the first tick, between two ticks and after the last, nothing is dropped |
| `LogPacing.SixtySixDrop` | crates/behavior/src/logger.rs:228-232 | for 66 there is a run that drops a record |
| `LogRotation.NoFileIff` | crates/behavior/src/logger.rs:200-280 | in every run, while active, the logger has no file if and only if the latest open attempted failed |
| `LogRotation.NoFileAfterRotationIff` | crates/behavior/src/logger.rs:200-280 | that open was a rotation of the running session |
| `LogRotation.NothingLostIff` | crates/behavior/src/logger.rs:236-283 | no record of a run is lost if and only if every flush of a non-empty ring could write and no earlier rotation of its session failed to open |
| `LogRotation.FailedRotationIsSticky` | crates/behavior/src/logger.rs:251-280 | after a failed rotation nothing but a shutdown restores a file, and nothing flushed until then reaches the disk |
| `LogRotation.RotationCanFail` | crates/behavior/src/logger.rs:272-280 | a run of 256 full batches that reaches this state |
| `LogRotation.NextRecordLost` | crates/behavior/src/logger.rs:251-258 | in it the next record flushed is lost although its write would succeed |
| `LoggerRaces.EveryRecordAccounted` | crates/behavior/src/logger.rs:236-283 | in every interleaving of harts at the lock boundaries each record pushed is in exactly one place, the ring is in order and the disk holds exactly the written records |
| `LoggerRaces.Conservation` | crates/behavior/src/logger.rs:118-283 | in every interleaving: pushed = in the ring + dropped + in the hands of a flush + on disk + lost |
| `LoggerRaces.InOrderIff` | crates/behavior/src/logger.rs:238-280 | in every interleaving of pairwise distinct records the disk holds the written records in the order pushed if and only if at every write nothing newer was on disk |
| `LoggerRaces.DiskInOrder` | crates/behavior/src/logger.rs:238-280 | in particular while no flush drains before the previous one has written |
| `LoggerRaces.OverlapReorders` | crates/behavior/src/logger.rs:238-260 | two overlapping flushes that put the newer record in front of the older |
| `LoggerRaces.QueuedAfterStop` | crates/behavior/src/logger.rs:422-425 | after any run a push that tests the flag before a shutdown leaves its record in the inactive logger's ring |
| `LoggerRaces.PushedInactiveIff` | crates/behavior/src/logger.rs:216-224 | records can enter the ring of an inactive logger, before it is started again, if and only if a hart was mid-push when it was stopped |
| `LoggerRaces.QueuedInactiveIff` | crates/behavior/src/logger.rs:216-224 | the empty ring of an inactive logger can fill, before it is started again, if and only if a hart is mid-push |
| `LoggerRaces.FilesBounded` | crates/behavior/src/logger.rs:260-280 | in every interleaving no file exceeds the threshold by a full batch |
| `LoggerRaces.FilesReadBack` | crates/behavior/src/logger.rs:76-92 | in every interleaving each file's bytes parse to exactly the records written to it |
| `LoggerRaces.AloneIsSequential` | crates/behavior/src/logger.rs:200-283 | the steps of one hart without interference amount to the sequential operations |
| `Pmp.CfgByte` | crates/arch-riscv64/src/pmp.rs:109-117 | the accumulated byte encodes permissions and top-of-range mode, unlocked |
| `Pmp.PackConfig` | crates/arch-riscv64/src/pmp.rs:228-231 | shifting and or-ing puts each region's byte into its lane and nothing elsewhere |
| `Pmp.PmpCsrs.Configure` | crates/arch-riscv64/src/pmp.rs:212-236 | all registers of the policy, field by field; an unordered layout panics before any write |
| `Pmp.PmpCsrs.EarlyInit` | crates/arch-riscv64/src/pmp.rs:258-276 | all registers of the boot policy |
| `Pmp.RegistersMeanPolicy` | crates/arch-riscv64/src/pmp.rs:138-236 | for every ordered, word-aligned layout, lowest-first top-of-range lookup in the packed registers gives every address the permission of the first listed region holding it, else none |
| `Pmp.PolicyTable` | crates/arch-riscv64/src/pmp.rs:138-157 | the listed policy spelled out by address |
| `Pmp.WriteXorExecute` | crates/arch-riscv64/src/pmp.rs:24-37 | only the RT heap is both writable and executable, firmware is never writable, nothing above the RT heap executes |
| `Pmp.DeviceWindowWritableIff` | crates/arch-riscv64/src/pmp.rs:150-155 | an address of the device window is writable if and only if it is at or above the end of the kernel text; under firmware covering the window it is read-only |
| `Pmp.EarlyTable` | crates/arch-riscv64/src/pmp.rs:249-276 | the boot registers yield the documented three-way table |
| `Habits.HabitTable.HabitRecord` | crates/behavior/src/habit.rs:162-200 | the table and the slot reported after a record |
| `Habits.RecordReports` | crates/behavior/src/habit.rs:162-200 | the slot reported holds the sequence, and none is reported exactly when all sixteen hold others |
| `Habits.HabitTable.HabitMatch` | crates/behavior/src/habit.rs:206-217 | the sequence of the first promoted slot whose trigger holds, or none if there is none |
| `Habits.HabitTable.HabitPrune` | crates/behavior/src/habit.rs:223-230 | exactly the active slots below the minimum are emptied |
| `Habits.TableRefinesMap` | crates/behavior/src/habit.rs:162-230 | over every run the active slots are exactly a map of at most 16 distinct sequences cut to eight, promoted exactly from ten on; both overflow together |
| `Habits.OfferedIff` | crates/behavior/src/habit.rs:206-217 | over every run exactly the active sequences with ten successes whose trigger fires are eligible |
| `Habits.SameCutIff` | crates/behavior/src/habit.rs:166-175 | two sequences share an entry if and only if they agree in their first eight skills |
| `Habits.CountSinceCreation` | crates/behavior/src/habit.rs:176-199 | a count is the number of records of its sequence since the event that created its entry, whose trigger it keeps |
| `Habits.MatchedBySequence` | crates/behavior/src/habit.rs:162-200 | two records into an empty table share a slot if and only if their sequences agree up to eight skills, whatever the triggers; the slot keeps the first trigger |
| `Habits.TriggerDoesNotMatter` | crates/behavior/src/habit.rs:162-200 | one trigger with two sequences takes two slots, two triggers with one sequence take one |
| `Habits.NeverAlwaysFires` | crates/behavior/src/habit.rs:71-79 | the trigger named `never` fires on every reading |
| `Habits.WiderTriggerFires` | crates/behavior/src/habit.rs:82-96 | widening a trigger only adds readings it fires on |
| `Habits.LimitAlone` | crates/behavior/src/habit.rs:82-96 | each limit alone fires exactly within it: nearer than, charged at least, rolled or pitched at most |
| `Habits.FiresIffAll` | crates/behavior/src/habit.rs:82-96 | a trigger fires if and only if its four limits do |
| `PatrolAngles.WrapCdeg` | crates/behavior/src/offline.rs:310-314 | terminates with the angle in (-18000, 18000] congruent to the input |
| `PatrolAngles.WrappedIs` | crates/behavior/src/offline.rs:310-314 | that angle is unique |
| `PatrolAngles.WrappedBelowIff` | crates/behavior/src/offline.rs:309-314 | the result is below 18000, as documented, if and only if the input is not half a turn |
| `PatrolAngles.SineLaws` | crates/behavior/src/offline.rs:323-356 | the sine table is odd, 360-periodic and at most 1000 in magnitude |
| `PatrolAngles.ReckoningWithinDistance` | crates/behavior/src/offline.rs:270-283 | dead-reckoned coordinates never exceed the odometry distance |
| `PatrolAngles.Atan2InRange` | crates/behavior/src/offline.rs:286-307 | the bearing is within half a turn and on the side of its ordinate |
| `PatrolAngles.Atan2OnRays` | crates/behavior/src/offline.rs:286-307 | the bearing is exact on the axes; on the diagonals it reads 36 degrees off the nearer axis |
| `OfflinePatrol.OfflineLayer.AddWaypoint` | crates/behavior/src/offline.rs:120-130 | a waypoint is appended while there is room |
| `OfflinePatrol.OfflineLayer.ClearWaypoints` | crates/behavior/src/offline.rs:133-136 | list and index are reset, laps are not |
| `OfflinePatrol.OfflineLayer.Activate` | crates/behavior/src/offline.rs:144-150 | index and laps restart only on a real activation |
| `OfflinePatrol.OfflineLayer.Arrive` | crates/behavior/src/offline.rs:219-223 | an arrival moves to the next waypoint and counts a lap at the end of the list |
| `OfflinePatrol.OfflineLayer.LayerPatrol` | crates/behavior/src/offline.rs:190-253 | state and command of one evaluation, and exactly when checked arithmetic panics |
| `OfflinePatrol.Heading` | crates/behavior/src/offline.rs:228-252 | the turn-or-drive decision from the wrapped heading error |
| `OfflinePatrol.SteersByError` | crates/behavior/src/offline.rs:228-252 | the command turns toward the waypoint, at 20 each way, and drives at 25 exactly within 20 degrees of its bearing |
| `OfflinePatrol.TurnHelpsIff` | crates/behavior/src/offline.rs:228-283 | with the position reckoned anew, a turn of up to 20 degrees reduces the heading error if and only if the bearing moves less than the turn its way and not so far the other way that the error is passed |
| `OfflinePatrol.StandingTurnHelps` | crates/behavior/src/offline.rs:228-283 | before any distance is driven, or within one whole degree, the error falls by exactly the turn |
| `PatrolAngles.SineSteps` | crates/behavior/src/offline.rs:323-356 | the sine moves by at most 18 thousandths a degree |
| `PatrolAngles.UnitCircle` | crates/behavior/src/offline.rs:323-356 | for every degree sine squared plus cosine squared is between 980000 and 1000237 |
| `PatrolAngles.ReckonedRadius` | crates/behavior/src/offline.rs:270-283 | so a reckoned position, before rounding, keeps the driven distance from the origin to about one percent |
| `OfflinePatrol.FarTurnHelps` | crates/behavior/src/offline.rs:228-307 | a waypoint far off, and clear of axes and diagonals, compared with what distance driven and turn can move the reckoned position, makes the turn reduce the error |
| `OfflinePatrol.TurningCanHurt` | crates/behavior/src/offline.rs:228-307 | a position, heading and waypoint for which the commanded turn takes the error from 26 degrees left to 95 right |
| `OfflinePatrol.IndexInRange` | crates/behavior/src/offline.rs:120-160 | in every run the index is below the count whenever there are waypoints |
| `OfflinePatrol.IndexChangesOnlyBy` | crates/behavior/src/offline.rs:133-226 | the index changes only on an arrival, an activation or a clear |
| `OfflinePatrol.RemembersWaypoints` | crates/behavior/src/offline.rs:120-160 | after every run the list is the first 32 waypoints added since the last clear, the patrol is on as last switched, and each real activation restarts index and laps |
| `OfflinePatrol.ArrivalsDetermineIndex` | crates/behavior/src/offline.rs:213-226 | for a fixed list of n, after k arrivals the index is k mod n and laps k / n, modulo 2^32 |
| `OfflinePatrol.CommandsAreSafe` | crates/behavior/src/offline.rs:190-253 | commands never exceed 25, and an active patrol stops exactly on arrival within 500 mm, below 6400 mV or without waypoints |

## Left out

- The internals of SHA-256, X25519 and AES, constant-time comparison and entropy.
- The encrypted channel itself, TCP, the scheduler, capabilities, IPC, OTA and the safety checks.
- The handlers behind the packet dispatch, and `decode_actuator_cmd` and `decode_predict_cmd`: they clamp and read fixed fields one by one, and no other modelled part depends on them.
- Reassembly of envelopes across receives, which the kernel does not do either.
- The output buffer of the encrypted layer: the arbitrary decoder may refuse what does not fit it.
- The accuracy of the arctangent approximations between the axes and the diagonals; range, symmetry and the values there are stated.
- The texts printed, file names and their reuse after 100000 rotations, and directory handling of the logger.
- Concurrency of the habit table, which holds its lock for a whole operation, and of the patrol, whose atomics and waypoint array have no lock (crates/behavior/src/offline.rs:69-84) and are taken to be used by one hart at a time.
- LoggerRaces.Conservation: the drop and error counters, incremented after the locks are released, are not part of the interleaved model.
- MissionLogger.Store: short writes are not modelled; `fat32_write` returns the full length or an error (crates/fs/src/fat32.rs:1836-1912), and after an error the file counts as unchanged.
- The analytics counters of the logger and their reset.
- Failures of the storage between opening a file and writing its header are one failed open.
- The request parsing, path checks and error packets of the TFTP server.
- Map display, position tracking and telemetry of the SLAM server.
- Locked entries, NAPOT and NA4 matching and machine-mode access of the memory protection unit; the policy uses none of them.
- Reconnection timing and the buzzer of the offline mode.
- AhrsState.RunUpdate: after a panic nothing is stated of the fields, because the kernel halts.
- HabitMatch: returns the used part of the sequence; the padding of the returned array is not modelled.
