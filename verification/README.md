# Verification of the DMC2 pendant control chain

The DMC2 machine is driven by a hand pendant. A Nano sends P3 packets over a
serial line to a bridge process; the bridge publishes a snapshot on HAL pins; a
realtime controller samples the snapshot once per servo cycle, guards its own
startup, and hands packets to a supervisor, whose interpreter turns them into jog
increments; a motion channel slices each increment into the count and scale pairs
that LinuxCNC's motion thread consumes. Beside this chain stand a process journal,
two AXIS journal readers, and the script contract that a Rust tool prints and AXIS
reads back. This project models these parts in Dafny and proves what they promise.

Each class of the program that updates itself in place is a class here, whose
methods are proved against a specification on values; the results about all runs
are lemmas about that specification. Loops of the program are loops here. Where two
processes meet, a run is any interleaving of their atomic steps.

- `Words`, `Text`, `Hexadecimal`, `Bitwise`: machine words, text, digits, exclusive or.
- `Protocol`, `PacketErrors`, `PinName`: the P3 line grammar, which error each other line
  is, and the numerals in HAL pin names.
- `Bridge`, `BridgeRuns`, `BridgeLink`: the serial bridge, what holds over all its runs,
  and exactly when its link is lost, held and restored.
- `Pendant`, `Recovery`, `Startup`, `WatchdogProgress`: interpreter, E-stop gesture and
  startup guards. `Runtime`, `RuntimeCalls`, `RuntimeRuns`: the controller's servo cycle,
  exactly what it reports, and how silence times out over runs.
- `Handshake`, `Seqlock`, `PendantChain`: controller and bridge together: the decoder
  reset, the snapshot's generation pin, and the way of a packet to a jog.
- `Motion`, `MotionPins`, `MotionRuns`, `MotionTiming`: the jog-count channel, its stop
  pins, the distance its consumer moves, and how long an increment takes.
- `Crc32`, `Fnv`, `Journal`, `JournalReader`, `JournalAcceptance`: checksums, the
  crash-tolerant journal, the polling readers, and exactly which files they take.
- `ScriptValues`, `ScriptContract`, `ScriptHeader`, `HeaderExact`, `ScriptErrors`: the
  script contract across two languages, which headers declare it, and which error each
  other line is. `HalValidation`, `HalLines`: the wiring check. `Dispatch`: program dispatch.

Some results say where a promise ends. A coherent snapshot read is one snapshot
only while fewer than 2^31 publications fall into the read
(`Seqlock.CoherentReadIsOneSnapshot`); at 2^31 a torn read is accepted
(`Seqlock.TornReadAccepted`). A completed journal append is one line exactly when its
event carries no newline, because the renderer escapes nothing
(`Journal.OneLineExactlyWithoutNewlines`). The motion channel bounds its count with the
period at acceptance only: whether an undisturbed increment is completed or cut short
depends on the later periods, and is read off the schedule, in both directions, by
`MotionTiming.ScheduleDecides`; `MotionTiming.ShorterPeriodsCutShort` gives the
increments that are accepted and end early.

## Model

| member | source | states |
|---|---|---|
| `Words.LaterIffSignedDeltaPositive` | firmware/pendant_nano/pendant_protocol.py:84-86 | Bridge and interpreter call a packet later exactly when the firmware tool's signed difference is positive, for every pair of 32-bit sequence numbers |
| `Words.SignedDeltaIsTheRepresentative` | firmware/pendant_nano/pendant_protocol.py:84-86 | The signed difference is the one value in [-2^31, 2^31) congruent to the true difference, for all integers |
| `Protocol.ParseU32Exact` | rust/crates/dmc2-serial-bridge/src/protocol.rs:155-169 | A token is read as v exactly when it is v's decimal numeral: no sign, no leading zero, no overflow |
| `Protocol.ParseI32Exact` | rust/crates/dmc2-serial-bridge/src/protocol.rs:171-179 | The same for signed tokens, minus zero excluded |
| `Protocol.ParserAcceptsExactlyRenderings` | rust/crates/dmc2-serial-bridge/src/protocol.rs:181-229 | A line parses to p if and only if p has a detent of -1, 0 or 1 and the line is p's canonical rendering |
| `Protocol.RenderingIsShort` | rust/crates/dmc2-serial-bridge/src/state.rs:399-403 | Every rendering is ASCII and at most 75 bytes, so the 128-byte check refuses none |
| `Protocol.BootMarkerIsNoPacket` | rust/crates/dmc2-serial-bridge/src/state.rs:411-418 | No line that starts like a boot marker is a packet |
| `PacketErrors.ErrorExactly` | rust/crates/dmc2-serial-bridge/src/protocol.rs:181-229 | A line that is no packet has the error of its length, its bytes, its count of fields, or its first field at fault, in this order |
| `PinName.ReversedNumeral` | rust/crates/dmc2-hal-sys/src/pin.rs:147-158 | The digit loop stays within its ten bytes and leaves the reversed decimal numeral |
| `PinName.NumberedPinName` | rust/crates/dmc2-hal-sys/src/pin.rs:147-169 | The name is refused exactly when it is too long; otherwise it is prefix and numeral, NUL-terminated in bounds, and the bridge's integer parser reads the value back |
| `Bridge.BridgeState.ObserveFaultReset` | rust/crates/dmc2-serial-bridge/src/state.rs:133-160 | The object's whole new state is the specified one: a generation is consumed once, and held only on a fresh, resting, faulted link |
| `Bridge.BridgeState.AcceptWithLineLength` | rust/crates/dmc2-serial-bridge/src/state.rs:295-397 | The object refuses an out-of-order packet and otherwise reaches the specified state |
| `Bridge.BridgeState.AcceptLine` | rust/crates/dmc2-serial-bridge/src/state.rs:399-426 | A complete line is a boot, a packet or a protocol error, and the object and its result follow |
| `Bridge.BridgeState.CheckTimeout` | rust/crates/dmc2-serial-bridge/src/state.rs:428-455 | The link is lost exactly when the last packet is older than the timeout |
| `BridgeRuns.EveryReachableStateIsCoherent` | rust/crates/dmc2-serial-bridge/src/state.rs:131-223 | In every reachable state six fields record one bit, whether a baseline is held, the shown fault is absent exactly on a connected link without quadrature fault, and a pending reset stands on a resting link with the counter it was requested at |
| `BridgeRuns.LatchTransitions` | rust/crates/dmc2-serial-bridge/src/state.rs:320-362 | The quadrature fault is on after an event exactly when the event changed the counter, or it was on and the event is neither a boot nor a granted reset |
| `BridgeRuns.LatchHoldsUntilBootOrGrant` | rust/crates/dmc2-serial-bridge/src/state.rs:162-223 | Over any run without boot and grant, link losses included, the latch holds |
| `BridgeRuns.GrantedPacketIsClean` | rust/crates/dmc2-serial-bridge/src/state.rs:320-358 | The packet that answers a reset shows its generation, no fault, no detent, and the counter of the request |
| `BridgeRuns.DetentNeedsHealthyPredecessor` | rust/crates/dmc2-serial-bridge/src/state.rs:318-362 | A nonzero detent is passed on only between two packets of one healthy stretch |
| `BridgeRuns.DroppedPacketsAreConserved` | rust/crates/dmc2-serial-bridge/src/state.rs:301-318 | Over a connected stretch the sequence advance is congruent to accepted plus newly dropped packets modulo 2^32 |
| `BridgeLink.TimeoutExactly` | rust/crates/dmc2-serial-bridge/src/state.rs:428-455 | In every reachable state a timeout check keeps a link that is up if and only if it comes no later than the last accepted packet's arrival plus the bound; otherwise it takes the link down, counts one timeout, and shows age and bound |
| `BridgeLink.FirstPacketPassesNoDetent` | rust/crates/dmc2-serial-bridge/src/state.rs:318-362 | A link that is down stays down until the next accepted packet, which passes no detent |
| `BridgeLink.DetentExactly` | rust/crates/dmc2-serial-bridge/src/state.rs:318-362 | A packet passes on its own detent exactly when the link is up, shows no quadrature fault, and keeps the counter; otherwise none |
| `BridgeLink.AcceptedPacketIsShown` | rust/crates/dmc2-serial-bridge/src/state.rs:363-396 | Every field of the snapshot after an accepted packet, the shown fault's evidence included |
| `BridgeLink.RefusalExactly` | rust/crates/dmc2-serial-bridge/src/state.rs:249-318 | A line or packet is refused exactly for the stated reasons; a refusal takes the link down and is shown with its error, length and the sequence numbers compared, and nothing else touches the error counter |
| `BridgeLink.RefusalsAreCounted` | rust/crates/dmc2-serial-bridge/src/state.rs:259-290 | Over every run the error counter is the number of refusals modulo 2^32 |
| `BridgeLink.LossIsShown` | rust/crates/dmc2-serial-bridge/src/state.rs:178-247 | What a boot, an open failure and a read failure show, and that the latch survives all but the boot |
| `BridgeLink.LineExactly` | rust/crates/dmc2-serial-bridge/src/state.rs:399-426 | A line is a boot if and only if it is the one marker, and packet p if and only if it is p's rendering; what is too long, not ASCII or another boot is refused before parsing |
| `BridgeLink.ResetIsHeldExactly` | rust/crates/dmc2-serial-bridge/src/state.rs:133-160 | In every reachable state a new request is held exactly on a link that is up, faulted, at rest, and whose last packet is in time |
| `BridgeLink.PollsAreRemembered` | rust/crates/dmc2-serial-bridge/src/state.rs:133-142 | The request remembered is the last nonzero one polled |
| `Pendant.PendantInterpreter.ProcessSample` | rust/crates/dmc2-core/src/pendant.rs:119-171 | The interpreter object computes the specified decision and memory |
| `Pendant.MemoryIsTheLastTwoSamples` | rust/crates/dmc2-core/src/pendant.rs:95-171 | After any stream, the memory is what its last two samples say |
| `Pendant.EveryDecisionIsAWindow` | rust/crates/dmc2-core/src/pendant.rs:119-171 | Every decision depends on the last three samples since a reset and on nothing older |
| `Pendant.JogExactly` | rust/crates/dmc2-core/src/pendant.rs:119-171 | A sample jogs if and only if it and its predecessor select the same motion with the deadman held, the E-stop released, one counter and rising sequence; the distance is detent times axis sign times increment |
| `Pendant.EveryJogIsAStep` | rust/crates/dmc2-core/src/lib.rs:15-146 | Every jog is one detent of the selected axis: motors 1, 0 and 2, X reversed, 10, 100 or 1000 pulses at 300, 4500 or 18000 mm per minute |
| `Recovery.EstopRecoverySequence.ProcessSample` | rust/crates/dmc2-core/src/recovery.rs:110-226 | The stage machine object makes the specified step and reports it |
| `Recovery.UnlockExactly` | rust/crates/dmc2-core/src/recovery.rs:110-226 | The unlock is requested at a sample if and only if a word of the gesture language ends there, without E-stop, with one counter value, begun in a ready state with that counter as baseline |
| `Recovery.GestureFromUnlocks` | rust/crates/dmc2-core/src/recovery.rs:110-226 | Every such gesture, wherever it begins in a run, unlocks at its last sample |
| `Recovery.ProgressHasAnOrigin` | rust/crates/dmc2-core/src/recovery.rs:110-226 | A machine midway stands there because of a gesture begun earlier in the run |
| `Recovery.WalkRecognisesGesture` | rust/crates/dmc2-core/src/recovery.rs:110-226 | The walk through stages and clicks accepts exactly the words of the regular expression |
| `Recovery.DoubledRestAlwaysUnlocks` | rust/crates/dmc2-core/src/recovery.rs:110-226 | A gesture whose first rest lasts two samples unlocks from every active state, whatever came before |
| `Recovery.LettersExactly` | rust/crates/dmc2-core/src/recovery.rs:82-108 | Which switch positions and wheel steps each letter of the gesture stands for |
| `Recovery.RestartsExactly` | rust/crates/dmc2-core/src/recovery.rs:110-226 | A restart is reported exactly when an active machine, with the E-stop released, sees another error counter or a detent beyond one step, or has a gesture broken off |
| `Recovery.RestingStagesExactly` | rust/crates/dmc2-core/src/recovery.rs:110-226 | A pressed E-stop starts any active machine over; a complete one stays complete exactly while counter and wheel are in order |
| `Recovery.CompletionHolds` | rust/crates/dmc2-core/src/recovery.rs:110-226 | Over any further samples in order the machine stays complete and asks for no second unlock |
| `Startup.HeartbeatSpacing` | rust/crates/dmc2-core/src/startup.rs:25-34 | Between two toggles lie at least 20 ms and less than 20 ms plus the longest period |
| `Startup.MesaStartupGuard.Update` | rust/crates/dmc2-core/src/startup.rs:94-157 | The guard object makes the specified step and keeps its three limit resets alike |
| `Startup.RunMesa` | rust/crates/dmc2-core/src/startup.rs:94-157 | In every reachable state limit resets are high exactly in the reset phase, and a fault is a phase |
| `Startup.MesaReadyMeansQuiet` | rust/crates/dmc2-core/src/startup.rs:94-157 | The guard is ready only after at least 120 ms without watchdog bit or I/O error |
| `Startup.QuietMakesMesaReady` | rust/crates/dmc2-core/src/startup.rs:94-157 | 120 ms of quiet updates plus two periods always make it ready |
| `Startup.ClearIsAskedExactly` | rust/crates/dmc2-core/src/startup.rs:106-157 | A clear of the I/O watchdog is asked for in exactly the updates of a begun startup that see its bit, and the guard then counts anew |
| `Startup.ControllerWatchdogGuard.Update` | rust/crates/dmc2-core/src/startup.rs:248-297 | The guard object makes the specified step and stays valid |
| `Startup.RunWatchdog` | rust/crates/dmc2-core/src/startup.rs:215-297 | In every reachable state enable is high exactly while waiting, stabilising or ready, and a committed runtime is ready or faulted |
| `Startup.WatchdogReadyIsEarned` | rust/crates/dmc2-core/src/startup.rs:215-297 | Ready is entered only after 10 ms held low, then an enable, then 250 ms acknowledged in every update, prerequisites true throughout |
| `WatchdogProgress.PhasesExactly` | rust/crates/dmc2-core/src/startup.rs:248-297 | Over every run the next phase is decided by the servo time spent in the present one: 10 ms low, 150 ms for the acknowledgement, 250 ms stable |
| `WatchdogProgress.CooperationMakesReady` | rust/crates/dmc2-core/src/startup.rs:248-297 | A guard without fault gets ready, at the latest after 260 ms and three periods of cooperation, whatever came before |
| `WatchdogProgress.AttemptsAreCounted` | rust/crates/dmc2-core/src/startup.rs:248-297 | The attempt counter is the number of times the watchdog was enabled, modulo 2^32 |
| `Startup.CommittedGuardHoldsOrFaults` | rust/crates/dmc2-core/src/startup.rs:215-266 | Over any later events a committed guard stays committed, whatever its prerequisites do; it is enabled and ready exactly until the first missing acknowledgement, and faulted for good from there on |
| `Runtime.RuntimeController.RunCycle` | rust/crates/dmc2-core/src/runtime.rs:178-364 | One servo cycle of the object yields the specified state, outputs and supervisor calls, early returns included |
| `Runtime.RuntimeController.AwaitReset` | rust/crates/dmc2-core/src/runtime.rs:252-268 | The object waits, gives up or takes the acknowledgement exactly as specified |
| `RuntimeCalls.FaultsExactly` | rust/crates/dmc2-core/src/runtime.rs:284-315 | In a cycle that neither preempts nor settles a reset, each of the five faults is reported if and only if its cause holds, stated by the fields before and the inputs: a committed controller without E-stop and recovery reports a link that is down or faulted, or silent for 100 ms, and no healthy one |
| `RuntimeCalls.ClearsExactly` | rust/crates/dmc2-core/src/runtime.rs:178-283 | A fault is cleared by exactly three things: a new operator clear, the bridge's answer in time on a healthy link, and the E-stop reset over a retained fault; and when the E-stop reset is begun |
| `RuntimeCalls.UpdatesExactly` | rust/crates/dmc2-core/src/runtime.rs:317-353 | The supervisor is run exactly in ordinary cycles that end with both guards ready; which packet it gets, and when the pendant is enabled |
| `RuntimeCalls.HandedOnOnce` | rust/crates/dmc2-core/src/runtime.rs:317-327 | The last sequence number handed on is remembered and nothing else touches it |
| `RuntimeCalls.RequestExactly` | rust/crates/dmc2-core/src/runtime.rs:150-156 | A decoder reset is requested exactly by an operator clear under a quadrature fault, held or sampled, and by an E-stop reset over a retained one; how long the request stands, and when it is dropped |
| `RuntimeCalls.GuardsExactly` | rust/crates/dmc2-core/src/runtime.rs:284-300 | How the guards step: what the watchdog's prerequisites are, when the runtime is committed, and when a faulted guard starts over |
| `RuntimeCalls.OutputsExactly` | rust/crates/dmc2-core/src/runtime.rs:158-176 | What each output pin shows |
| `RuntimeRuns.LinkTimesOut` | rust/crates/dmc2-core/src/runtime.rs:302-315 | Over every run, a link that shows up and faultless is reported as timed out exactly when no new sequence number was read for 100 ms of servo time |
| `RuntimeRuns.TaskTimesOut` | rust/crates/dmc2-core/src/runtime.rs:199-205 | Over every run, the task counts as alive exactly while its monitor is read and its heartbeat moved within 100 ms of servo time |
| `Handshake.PendingStep` | rust/crates/dmc2-core/src/runtime.rs:150-282 | A cycle replaces the pending request by a fresh generation, drops it, or keeps it one period older and under 100 ms |
| `Handshake.AcknowledgementIsGenuine` | rust/crates/dmc2-core/src/runtime.rs:252-282 | In every interleaving: an acknowledged request was issued, then observed by the bridge, then granted to a clean packet within its timeout with an unchanged counter and a zero detent, then published, all while the controller waited for it and within 100 ms of servo time |
| `Handshake.AcknowledgedAtMostOnce` | rust/crates/dmc2-core/src/runtime.rs:252-282 | No request is acknowledged twice |
| `Handshake.ClosedRequestStaysClosed` | rust/crates/dmc2-core/src/runtime.rs:252-282 | A request that was acknowledged, expired, cancelled or replaced is never waited for again |
| `Handshake.CleanResetSucceeds` | rust/crates/dmc2-serial-bridge/src/state.rs:133-160 | Conversely, a poll at rest, later a clean next packet, later the publication of what it left, and later a timely coherent read of it end in the acknowledgement, under every interleaving with servo cycles, repeated polls, timeout checks that find the link in time, and earlier publications |
| `Handshake.NextPacketDecides` | rust/crates/dmc2-serial-bridge/src/state.rs:320-336 | After a poll at rest the next accepted packet grants the reset if and only if it is in time, has the counter of the request, and E-stop and deadman are released |
| `Handshake.BridgePendingWasObserved` | rust/crates/dmc2-serial-bridge/src/state.rs:133-160 | Whatever reset the bridge holds pending was polled from the request pin, new and eligible, and held unchanged since |
| `Handshake.AckWasGranted` | rust/crates/dmc2-serial-bridge/src/state.rs:345-347 | Whatever generation the bridge shows as acknowledged was granted to an accepted packet |
| `Handshake.GenerationsCount` | rust/crates/dmc2-core/src/runtime.rs:150-156 | Generations number the requests until the 32-bit counter is used up |
| `Seqlock.CoherentExactly` | rust/crates/dmc2-rt/src/component/hal/transport.rs:341-392 | A read is taken as coherent exactly when no publication is under way and the number completed meanwhile is a multiple of 2^31 |
| `Seqlock.OnlyCompletedReadsAreAccepted` | rust/crates/dmc2-rt/src/component/hal/transport.rs:351-392 | A read starts exactly when no publication is under way, and only a read that loaded the generation again is ever accepted |
| `Seqlock.TornReadAccepted` | rust/crates/dmc2-rt/src/component/hal/transport.rs:341-392 | The bound is exact: a reader that takes one pin before and one after 2^31 publications accepts a pair that no snapshot ever held |
| `Seqlock.CoherentReadIsOneSnapshot` | rust/crates/dmc2-serial-bridge/src/application/hal/publisher.rs:32-178 | Under every interleaving of single pin accesses, a coherent read within 2^31 publications holds one whole snapshot, the latest |
| `PendantChain.JogIsBackedByTwoPackets` | rust/crates/dmc2-core/src/runtime.rs:317-327 | Through bridge, snapshot, controller and interpreter, a jog rests on two accepted packets with the same selection, the later one on a link already up and faultless, not an answer to a reset, with its own detent |
| `PendantChain.DeliveredWasAccepted` | rust/crates/dmc2-core/src/runtime.rs:317-327 | Every packet handed to the supervisor is the latest published snapshot of an accepted packet on a healthy link |
| `Motion.NativeMotionCommandChannel.Advance` | rust/crates/dmc2-core/src/motion.rs:165-177 | The channel object and its error result follow the specification |
| `Motion.NativeMotionCommandChannel.PublishNextChunk` | rust/crates/dmc2-core/src/motion.rs:258-298 | The chunk reaches the pins, or nothing changes and the error says why |
| `Motion.NativeMotionCommandChannel.Accept` | rust/crates/dmc2-core/src/motion.rs:179-256 | Each command is accepted, refused with its error, or stops the channel as specified |
| `MotionRuns.UpdateComponent` | rust/crates/dmc2-rt/src/component/cycle.rs:6-44 | The component's cycle on the channel object is the specified one, clears and errors included |
| `MotionRuns.EveryScheduleRuns` | rust/crates/dmc2-rt/src/component/cycle.rs:6-44 | Every schedule of cycles has its execution, sound throughout |
| `MotionRuns.PinsAreExclusive` | rust/crates/dmc2-core/src/motion.rs:258-322 | On every pin image one count at most is nonzero, one enable at most is set, only on that lane, and never beside a stop |
| `MotionPins.StopPinsExactly` | rust/crates/dmc2-rt/src/component/cycle.rs:6-44 | On every pin image of every run: the stop pin is high if and only if the cycle was a clear, a stop, an immediate stop or failed, the immediate pin if and only if it was one of these but a plain stop; and the phase of every cycle |
| `MotionPins.AcceptsExactly` | rust/crates/dmc2-core/src/motion.rs:202-256 | An increment is accepted if and only if the channel is idle, no clear preempts it, its rate is positive, its distance finite and not zero, and its chunks do not outnumber the count |
| `MotionPins.RefusalNamesItsCause` | rust/crates/dmc2-core/src/motion.rs:202-256 | The error of a refused increment is the first cause that holds |
| `MotionPins.RunningFailureNamesItsCause` | rust/crates/dmc2-core/src/motion.rs:258-298 | A running increment fails to advance exactly for a period of zero or because its lane has no further count, and the error says which |
| `MotionPins.LanesExactly` | rust/crates/dmc2-core/src/motion.rs:258-285 | Which wheel each axis and path drives |
| `MotionRuns.CycleMoves` | rust/crates/dmc2-core/src/motion.rs:158-164 | A cycle moves the machine by its published chunk along its lane, and by nothing else |
| `MotionRuns.DistanceIsConserved` | rust/crates/dmc2-core/src/motion.rs:158-177 | On every lane, distance asked for equals distance travelled plus outstanding plus withdrawn, over every run |
| `MotionRuns.IncrementMoves` | rust/crates/dmc2-core/src/motion.rs:202-322 | An increment moves exactly delta over pulses per millimetre, or, when interrupted, strictly less in the same direction, and moves no other lane |
| `MotionRuns.OnlyChunksMove` | rust/crates/dmc2-core/src/motion.rs:158-177 | A rebase, a stop or any other cycle without a chunk moves nothing |
| `MotionTiming.TravelIsPaid` | rust/crates/dmc2-core/src/motion.rs:258-298 | For every schedule of periods, before any cycle an undisturbed increment has moved its lane by the budgets of the cycles its 32-bit count lasts for, capped at the distance asked, and it still runs exactly while distance and count are left |
| `MotionTiming.ScheduleDecides` | rust/crates/dmc2-core/src/motion.rs:232-298 | An undisturbed increment is completed by a cycle if and only if those budgets cover the distance by then, and cut short if and only if the count is used up before they do, in both directions, the backward count lasting one chunk longer |
| `MotionTiming.EndIsScheduled` | rust/crates/dmc2-core/src/motion.rs:258-298 | The cycle in which it ends cuts it short exactly when the schedule had not paid for the distance, which is exactly when the count overflows |
| `MotionTiming.ShorterPeriodsCutShort` | rust/crates/dmc2-core/src/motion.rs:232-245 | An increment that acceptance allows ends early, forward or backward, when the periods after the first are half as long |
| `MotionTiming.CyclesNeededIsLeast` | rust/crates/dmc2-core/src/motion.rs:232-245 | The quotient of distance and budget, rounded up, is the one number of cycles that covers the distance while one fewer does not |
| `MotionTiming.IncrementTakesExactly` | rust/crates/dmc2-core/src/motion.rs:152-298 | At a constant period an undisturbed increment publishes in exactly ceil(distance over budget) cycles without count overflow, and the channel is ready two advances later, not before |
| `Crc32.Checksum` | rust/crates/dmc2-process-supervisor/src/journal/mod.rs:171-181 | The nested loops compute the specified CRC-32 |
| `Crc32.BitsAreLinear` | rust/crates/dmc2-process-supervisor/src/journal/mod.rs:175-178 | Any number of bit steps distributes over exclusive or |
| `Crc32.BitsAreInjective` | rust/crates/dmc2-process-supervisor/src/journal/mod.rs:175-178 | Any number of bit steps is invertible on 32-bit words |
| `Crc32.FeedAllAtOnce` | rust/crates/dmc2-process-supervisor/src/journal/mod.rs:171-181 | Feeding bytes one by one equals feeding their little-endian word at once |
| `Crc32.CrcDetectsShortBursts` | rust/crates/dmc2-process-supervisor/src/journal/mod.rs:171-181 | Different messages of one length that differ only within four consecutive bytes have different checksums |
| `Crc32.ChecksumLeavesResidue` | rust/crates/dmc2-process-supervisor/src/journal/mod.rs:171-181 | Any message followed by its own checksum, low byte first, has one and the same checksum |
| `Crc32.PolynomialIsStandard` | rust/crates/dmc2-process-supervisor/src/journal/mod.rs:177 | The polynomial is the CRC-32 one, bit reflected |
| `Fnv.RevisionReader.Read` | rust/crates/dmc2ctl/src/script.rs:202-211 | After each read the revision is length and hash of everything read so far |
| `Fnv.ReviseInChunks` | rust/crates/dmc2ctl/src/script.rs:140-147 | However a file is split into reads, its revision is length and FNV-1a of the whole |
| `Fnv.Fnv64` | python/dmc2_axis/diagnostic_journal.py:642-646 | The Python fold on unbounded integers computes the same hash |
| `Fnv.OneByteChangesTheHash` | rust/crates/dmc2ctl/src/script.rs:202-211 | Contents of one length that differ in exactly one byte have different revisions |
| `Journal.JournalFile.AppendEvent` | rust/crates/dmc2-process-supervisor/src/journal/mod.rs:60-72 | An append writes the separator if one is needed and then the record, up to the byte where it dies |
| `Journal.RecordLayout` | rust/crates/dmc2-process-supervisor/src/journal/mod.rs:60-62 | A record is its payload, a tab, the tag and eight hexadecimal digits that read back as the checksum |
| `Journal.ParseIsFaithful` | rust/crates/dmc2-process-supervisor/src/journal/mod.rs:148-169 | Lines and tail are the file cut at its newlines, and a separator is due exactly when a tail is left |
| `Journal.SectionEffect` | rust/crates/dmc2-process-supervisor/src/journal/mod.rs:116-169 | One critical section terminates an interrupted record, then adds its own line, or a prefix of it |
| `Journal.EveryLineHasOneOwner` | rust/crates/dmc2-process-supervisor/src/journal/mod.rs:60-169 | Over any interleaving of appends and crashes every line was there before or belongs to one append, in lock order; a completed append has its one whole line, all others are prefixes of interrupted records |
| `Journal.OneLineExactlyWithoutNewlines` | rust/crates/dmc2-process-supervisor/src/journal/mod.rs:60-72 | A completed append is one whole line if and only if its event has no newline |
| `Journal.CorruptionIsNoticed` | rust/crates/dmc2-process-supervisor/src/journal/mod.rs:60-62 | A record altered within four consecutive bytes of its payload no longer carries its own checksum |
| `JournalReader.LineReader.Poll` | python/dmc2_axis/diagnostic_journal.py:147-160 | A poll delivers queued events first, reads only when none is queued and nothing failed, and keeps the reader equal to a batch reader |
| `JournalReader.LineReader.Round` | python/dmc2_axis/notifications.py:188-209 | Polling until nothing is returned delivers every event of the batch reading of the whole file; a round raises exactly once, when the batch fails, and then the queued events are still delivered before the rest |
| `JournalReader.LineReader.ReadCompleteLines` | python/dmc2_axis/diagnostic_journal.py:251-303 | Cutting the buffer line by line reaches the batch reading of all bytes read |
| `JournalReader.PollsAreOneBatch` | python/dmc2_axis/error_journal.py:90-103 | However a growing file is split across polls, what was delivered and queued is the batch reading of the file, or a beginning of it |
| `JournalReader.BatchIsLongestValidPrefix` | python/dmc2_axis/diagnostic_journal.py:251-303 | A batch reads exactly the longest valid prefix of the complete lines |
| `JournalReader.EveryLineHasItsPlace` | python/dmc2_axis/diagnostic_journal.py:251-303 | One header, nine recovery rows with the closed code set, then one event per line |
| `JournalReader.ActiveSetIsTheFold` | python/dmc2_axis/diagnostic_journal.py:463-480 | Events number 1..n, each key alternates and starts with an assertion, and a key is active exactly when its last event asserted it |
| `JournalReader.ErrorEventsAreTheLines` | python/dmc2_axis/error_journal.py:156-179 | The error reader's events are the lines after the header, numbered 1..n |
| `JournalAcceptance.ReadsExactly` | python/dmc2_axis/diagnostic_journal.py:251-303 | The diagnostic reader takes a file whole if and only if its header is valid, its sealed recovery rows declare the nine codes with distinct identities, and its sealed events number 1..n and alternate for each key; it then delivers exactly these events |
| `JournalAcceptance.ErrorsReadExactly` | python/dmc2_axis/error_journal.py:156-179 | The error reader takes a file whole if and only if every line is sealed, the header says the success codes, and the events number 1..n |
| `JournalReader.OneAlteredByteBreaksTheSeal` | python/dmc2_axis/diagnostic_journal.py:497-504 | A sealed row with one altered byte anywhere, its checksum field included, is not sealed |
| `JournalReader.AlteredRowStopsTheReader` | python/dmc2_axis/diagnostic_journal.py:320-338 | An accepted recovery row or event altered in one byte makes the diagnostic reader fail there, with the state and events of the rows before, whatever follows |
| `JournalReader.AlteredErrorStopsTheReader` | python/dmc2_axis/error_journal.py:198-236 | The same for every line of the error journal, its header included |
| `ScriptValues.ParseList` | rust/crates/dmc2ctl/src/script.rs:430-464 | The loop computes the specified list or first error |
| `ScriptValues.ParseListExactly` | rust/crates/dmc2ctl/src/script.rs:430-464 | Rust accepts exactly the canonical text of a nonempty list without repetition |
| `ScriptValues.EnumListExactly` | python/dmc2_axis/script_contract.py:144-153 | Python accepts exactly the same texts for the same lists |
| `ScriptContract.DecimalExact` | python/dmc2_axis/script_contract.py:156-163 | A count is accepted exactly as its canonical numeral up to 2^64 - 1 |
| `ScriptContract.HashExact` | python/dmc2_axis/script_contract.py:179-181 | A hash is accepted exactly as its sixteen lower-case digits |
| `ScriptContract.Hex` | rust/crates/dmc2ctl/src/main.rs:276-282 | The loop renders two digits per byte |
| `ScriptContract.ReadFields` | python/dmc2_axis/script_contract.py:195-202 | The dictionary loop succeeds exactly when the nine lines name the nine fields in order, and records their values |
| `ScriptContract.ParseInspectionOutput` | python/dmc2_axis/script_contract.py:184-247 | The reader computes the specified contract or failure |
| `ScriptContract.ReaderAcceptsExactlyPrintouts` | python/dmc2_axis/script_contract.py:184-247 | For the same file, an output yields contract c if and only if c is valid and the output's lines are c's printout |
| `ScriptContract.PrintThenRead` | rust/crates/dmc2ctl/src/main.rs:248-274 | Every valid contract survives printing in Rust and reading in Python |
| `ScriptContract.OtherPathsAreRefused` | python/dmc2_axis/script_contract.py:204-215 | An output that names a path is refused for it exactly when it names another file or cannot be compared, whatever else it says |
| `ScriptContract.PathlessOutputsAreInvalid` | python/dmc2_axis/script_contract.py:184-215 | For another file every output that does not name format and path is a protocol failure |
| `ScriptHeader.ParseHeader` | rust/crates/dmc2ctl/src/script.rs:214-329 | The loop over at most 128 lines computes the specified fields or first error |
| `ScriptHeader.AcceptedHeaderIsGood` | rust/crates/dmc2ctl/src/script.rs:214-364 | Whatever the lines are, an accepted header holds nonempty lists without repetition of permitted values |
| `ScriptHeader.HeaderReachesAxis` | rust/crates/dmc2ctl/src/script.rs:214-364 | For every file, the contract the header parser returns, the conservative default included, is what AXIS recovers |
| `ScriptHeader.EveryContractHasAHeader` | rust/crates/dmc2ctl/src/script.rs:273-320 | Every contract is reachable: its five-line header is accepted and yields it |
| `ScriptHeader.HeaderlessExactly` | rust/crates/dmc2ctl/src/script.rs:214-347 | A file yields the conservative contract if and only if no header begins in what is looked at of it; and what that contract is |
| `HeaderExact.HeaderExactly` | rust/crates/dmc2ctl/src/script.rs:214-364 | A file yields contract f if and only if its header declares f: only blanks and comments before, each field once in any order, its text f's own, and the end within 128 lines |
| `ScriptErrors.ListFaultExactly` | rust/crates/dmc2ctl/src/script.rs:430-464 | A list fails at its first faulty item, with that item's error: empty, unknown or repeated; and a text with no item fails as an empty field |
| `ScriptErrors.LineFaultExactly` | rust/crates/dmc2ctl/src/script.rs:236-320 | Which error each line within a header is, and that the other lines are fields taken or the end |
| `ScriptErrors.OpeningFaultExactly` | rust/crates/dmc2ctl/src/script.rs:236-262 | Outside a header a line is refused exactly if it opens one and is too long or not of version 1 |
| `HalValidation.Validate` | rust/crates/dmc2-launcher/src/hal_validation.rs:27-41 | The loops over sources, lines and pins compute the specified verdict |
| `HalValidation.ValidExactly` | rust/crates/dmc2-launcher/src/hal_validation.rs:27-82 | Validation succeeds if and only if all sources are readable and no pin stands on two signals; the map then holds exactly the named pins, each with its first place |
| `HalValidation.VerdictIgnoresOrder` | rust/crates/dmc2-launcher/src/hal_validation.rs:27-82 | The verdict does not depend on the order of the sources |
| `HalLines.LinesOfText` | rust/crates/dmc2-launcher/src/hal_validation.rs:48 | A text is cut at its line feeds, a carriage return before one dropped, and an empty last line is none |
| `HalLines.NetLineIsRead` | rust/crates/dmc2-launcher/src/hal_validation.rs:49-60 | A line of the word net, a signal and items, however spaced and with or without a comment, nets the signal to the items that are no arrows, in order |
| `HalLines.NetIsANetLine` | rust/crates/dmc2-launcher/src/hal_validation.rs:49-60 | Conversely, a line that nets anything is such a line |
| `Dispatch.CheckPrerequisiteValues` | rust/crates/dmc2ctl/src/dispatch.rs:328-363 | The loop succeeds exactly when every prerequisite is satisfied, and otherwise names the first that is not |
| `Dispatch.HeadersRequireWhatCanHold` | rust/crates/dmc2ctl/src/script.rs:401-428 | A header may require a prerequisite if and only if some status can satisfy it while the pendant switch is unread |
| `Dispatch.HeaderlessRunNeeds` | rust/crates/dmc2ctl/src/script.rs:338-347 | The default prerequisites hold exactly when the machine is on, idle, homed and clear of the auxiliary E-stop |
| `Dispatch.LoadProgramPath` | rust/crates/dmc2ctl/src/dispatch.rs:162-190 | For every backend and file behaviour, loading at most closes and then opens; the close directly follows an idle status and a successful revalidation, the open a successful close and a second revalidation; a complete load ends in the evidence that this program is loaded, and a failed one names the cause that its last call shows |
| `Dispatch.RunProgramPath` | rust/crates/dmc2ctl/src/dispatch.rs:221-252 | For every backend and file behaviour, a run is issued only after two complete checks, with the mode change between them exactly if the first did not show the automatic mode; a check is a status naming the exact file with all prerequisites true and a successful revalidation; a failure names the cause that the last call shows |
| `Dispatch.ExecuteProgramPath` | rust/crates/dmc2ctl/src/dispatch.rs:208-219 | Executing is a status; with its prerequisites met, a load; and only after a complete load, a run; otherwise the error is the first unmet prerequisite or the missing status |
| `Dispatch.Session` | rust/crates/dmc2ctl/src/dispatch.rs:139-252 | Over any sequence of loads, runs and executions of any programs, every command issued is justified by the calls directly before it, for the very program and prerequisites it was issued for |

## Left out

- AcknowledgementIsGenuine: assumes at most 2^32 - 1 requests in a run, because afterwards the generation counter repeats and an old acknowledgement could answer a new request.
- CoherentReadIsOneSnapshot: models the pins as sequentially consistent single accesses, because the hardware's ordering of plain pin writes around the atomic generation is not part of this model.
- CorruptionIsNoticed: speaks of the stored record only, because the repository has no reader of the process journal.
- PollsAreOneBatch: covers one growing file, because a truncated or replaced file makes the reader start over with a new one.
- The supervisor behind the controller is abstract: its answers are arbitrary inputs, and what it is told is a list of calls.
- Floating-point rounding and overflow in the motion channel are not modelled: its numbers are reals, and a non-finite distance is a case of its own; the velocity-mode pins, which stay false, are omitted.
- The bridge's packet age pin, and the reading of bytes into lines before `accept_line`, are not part of this model.
- The parsers of single diagnostic and error rows are parameters of the readers; of their checks only the checksum is stated.
- The file path is a byte string, and whether two paths name one file is an answer of the environment.
- Serial ports, HAL registration, file locking, synchronisation to disk and process handling appear only through their stated effect.
- Status polling while homing, control operations, catalogs and command line parsing are omitted as easy members.
- The content length of a revision is not bounded to 64 bits in the reader that counts it.
