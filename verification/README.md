# Verified model of the robofw control loops

The firmware of the two robots is a set of service loops joined by message
queues. This project models the loops that carry state and arithmetic (wheel
encoders, SBUS receiver, coordinator, motion control, speed control) and the
CAN codecs of tbot and VESC, and proves what they do over whole runs.

Every object that a loop updates is a class; one iteration is a method `Step`
(`Decode` for a received byte) whose postcondition gives the whole new state as
a function of the old one. The theorems are about those functions and are stated
against definitions that do not mention the loop: true wheel positions, a
parser of whole byte strings, positional numbers, the history of polls.

## Modules

| module | content |
|---|---|
| `CArith`, `Float32`, `Bits`, `Digits`, `Nonlinear`, `Wrappers` | C's fixed-width and truncating arithmetic, single precision, bit operators, positional numbers, arithmetic facts, `Option` |
| `MsgQueue`, `QueueSharing` | the bounded queues and the put/purge loop; the same under any interleaving of threads |
| `WheelCounter`, `SpeedFilter`, `EncoderService`, `EncoderRun` | wrap detection; filter, outliers, averaging; the service; whole runs against the true motion |
| `SbusChannels`, `Sbus` | the 11-bit channels of a frame; the decoder and the parser it implements |
| `MotionControl`, `Coordinator`, `StopGuarantee` | rate limiter and kinematics; arbitration and timeouts; both as threads |
| `Pid`, `SpeedControl` | the anti-windup controller; the loop that steps two of them |
| `Float32Bounds`, `RoundedControl` | the same loop in single precision |
| `CanBytes`, `TbotMessenger`, `Vesc` | the CAN codecs |

## What came out

* Encoder: with at most 150 pulses between samples every sample of a run is
  understood, except the first decreasing reading of channel 0 if it is a
  genuine downward move: the initialiser sets that channel's overflow flag
  (`WrongExactly`). A window's speed is the true displacement over time exactly
  when no move goes against the last one (`RawSpeed`); a window of downward
  motion that ends at rest is reported with the opposite sign
  (`RestReversesSign`). A wheel in steady motion is published within 3 rpm of
  its true speed after 33 windows (`SteadyWheelIsReported`). The one window with a misunderstood sample subtracts
  that move instead of adding it (`RawSpeedOfBadWindow`). The 32-bit product
  wraps from 35792 pulses on (`ProductFits`).
* The motion thread receives, in every interleaving with the coordinator, motions
  the inputs called for, in order and none twice (`ReceivesWhatWasCalledFor`).
* Both timeouts of the coordinator are windows over the last seven polls
  (`FollowsHistory`). An emergency stop is released when the link is silent for
  seven polls (`LostLinkReleasesEstop`).
* The rate limiter steps toward the target exactly when the difference fits 16
  bits, does not limit a wheel at rest (`LimitExact`), and cannot brake from
  -32768 rpm (`BrakeExact`). Targets within 16383 rpm never lead it outside
  that (`CommandsFollow`), so an emergency stop brings both wheels to rest
  within 163 received motions for sticks in twice their nominal range
  (`StopFromInputs`, `StickTargets`).
* Conditional integration keeps the saturated output from fighting the error, in
  every run, if and only if ki * ts <= kp (`AntiWindup`); for the shipped gains
  and the targets and measurements the service can receive, up to a loop period
  of 166 ms, in exact arithmetic and in single precision
  (`PeriodsWithoutWindup` of `SpeedControl` and of `RoundedControl`).
* The float fields of the CAN messages lose information. Motion words are told
  apart up to 13107201 hundredths; the next one reads the same
  (`MotionWordsToldApart`). A VESC count that is read and sent again arrives as
  itself or one lower (`Recount`), and servo count 251 arrives as 250
  (`ServoCount251`).

Where code and comments differ the code is followed: the encoder comments call
a reading positive only when it increases, the code also when it is unchanged;
they speak of an rpm every ~20 ms, but the first window holds one sample and is
timed from thread start (`StartTime`); the digital SBUS channels hold 0x80 and
0x40, not one bit each.

Abstractions: the CAN codecs and the encoder's filter compute in IEEE 754
single precision, rounded to nearest even after every operation; kinematics and
the controller objects compute in reals, and `RoundedControl` repeats the main
result about the controllers in single precision. Clocks, counter registers, received bytes
and the messages of other threads are inputs. The kernel's put, get and purge
act atomically. Signed 32-bit overflow and out-of-range float conversion,
undefined in C, are taken as two's-complement wrap-around.

## Model

| member | source | states |
|---|---|---|
| WheelCounter.SampleExact | src/service/common/encoder/src/encoder_service.c:106-147 | one sample gives the true direction and distance iff it is within 150 pulses or the register wraps; with a stale overflow flag a decreasing reading is right iff the move was upward |
| WheelCounter.FlagsAfter | src/service/common/encoder/src/encoder_service.c:26-139 | between samples the underflow flag is clear, the overflow flag is its initial value until the first decreasing reading and clear afterwards |
| WheelCounter.WrongExactly | src/service/common/encoder/src/encoder_service.c:26-151 | over a run with at most 150 pulses per sample, exactly which sample is misunderstood |
| WheelCounter.AtMostOneWrong | src/service/common/encoder/src/encoder_service.c:26-151 | at most one sample of a run is misunderstood, none if the flag starts clear |
| CArith.TruncatesTowardZero | src/service/common/encoder/src/encoder_service.c:159-187 | the division of the encoder service rounds toward zero, so the sign of the dividend changes only the sign of the quotient |
| CArith.QuotientUnique | src/service/common/encoder/src/encoder_service.c:159-187 | no other number lies that close to the true quotient on the side of zero |
| SpeedFilter.FilterMemory | src/service/common/encoder/src/encoder_service.c:163-176 | what the filter carries is the last output and the two newest raw speeds |
| SpeedFilter.RingHoldsLastTen | src/service/common/encoder/src/encoder_service.c:178-181 | the ring, read from its index, is the sequence of the last ten outputs |
| SpeedFilter.ReportIsMean | src/service/common/encoder/src/encoder_service.c:178-188 | the reported speed is the truncated mean of exactly the last ten outputs, once more than ten were made |
| SpeedFilter.ReportsInNumbers | src/service/common/encoder/src/encoder_service.c:178-188 | the first ten reports are the outputs, every later one a tenth of the sum of ten of them, rounded toward zero |
| SpeedFilter.OutlierIsReplaced | src/service/common/encoder/src/encoder_service.c:163-181 | one update: a filter value beyond 600 rpm is replaced by the last output, every other one is the output; what enters history and ring |
| SpeedFilter.OutputsKeptOrFiltered | src/service/common/encoder/src/encoder_service.c:163-176 | over runs, an output repeats its predecessor exactly where the filter value is impossible or equal to it, and is the filter value elsewhere |
| SpeedFilter.OutlierExample | src/service/common/encoder/src/encoder_service.c:163-171 | after 590, with both raw speeds at 700, the value 619 is rejected and 590 kept |
| SpeedFilter.AlwaysPossible | src/service/common/encoder/src/encoder_service.c:168-188 | whatever the raw speeds, every output and every report lies in [-600, 600] |
| SpeedFilter.Contraction | src/service/common/encoder/src/encoder_service.c:163-188 | raw speeds within [-M, M], M <= 600, keep outputs and reports in it, and no output is rejected |
| SpeedFilter.Coefficients | src/service/common/encoder/src/encoder_service.c:65-66 | the coefficients of the model are the source's decimals rounded to single precision |
| SpeedFilter.NearExact | src/service/common/encoder/src/encoder_service.c:65-166 | for speeds up to 800 rpm the five roundings of the filter's sum change it by less than a thousandth of an rpm |
| SpeedFilter.ConversionDefined | src/service/common/encoder/src/encoder_service.c:164-166 | for any raw speeds the float sum is within 700 of the exact one and fits the 32-bit integer it is converted to |
| SpeedFilter.EveryRoundingCounts | src/service/common/encoder/src/encoder_service.c:164-166 | an input at which each of the five roundings matters, and the sum there |
| SpeedFilter.PulledIn | src/service/common/encoder/src/encoder_service.c:164-176 | one update toward a constant speed moves closer while more than 3 rpm off and never farther from a speed not yet reached, rounding included |
| SpeedFilter.AgainstExact | src/service/common/encoder/src/encoder_service.c:65-166 | without rounding no update leads away from a constant speed and a reached one is kept; single precision differs from that by at most one rpm |
| SpeedFilter.Settles | src/service/common/encoder/src/encoder_service.c:164-188 | under a constant raw speed the output is within 3 rpm after 22 further estimates, the reported mean after 31, for good |
| EncoderService.EncoderChannel.TakeSample | src/service/common/encoder/src/encoder_service.c:109-152 | the in-place update of flags, direction, accumulator and previous reading is the sample function |
| EncoderService.EncoderChannel.Estimate | src/service/common/encoder/src/encoder_service.c:156-188 | the in-place conversion, filter, rejection, histories and average are the estimate function |
| EncoderService.EncoderChannel.SumHistory | src/service/common/encoder/src/encoder_service.c:183-186 | the loop adds up the whole ring |
| EncoderService.EncoderLoop.constructor | src/service/common/encoder/src/encoder_service.c:26-88 | initial state, with the overflow flag of channel 0 only |
| EncoderService.EncoderLoop.CloseWindow | src/service/common/encoder/src/encoder_service.c:156-213 | estimates all channels, restarts the window, counts, and publishes from the 21st estimate on |
| EncoderService.EncoderLoop.Step | src/service/common/encoder/src/encoder_service.c:90-218 | one iteration of the loop, its whole new state and what it puts into the queue |
| EncoderRun.SignedIsDisplacement | src/service/common/encoder/src/encoder_service.c:141-159 | the signed pulse sum of a window is its displacement iff no move goes against the last one |
| EncoderRun.RestReversesSign | src/service/common/encoder/src/encoder_service.c:125-159 | downward motion that ends at rest gets the opposite sign |
| EncoderRun.ProductFits | src/service/common/encoder/src/encoder_service.c:159-160 | the 32-bit product is exact iff the window holds at most 35791 pulses |
| EncoderRun.RawRpmWrapped | src/service/common/encoder/src/encoder_service.c:157-161 | for every accumulator value: the 32-bit product divided by elapsed time and pulses per round at once, rounded toward zero |
| EncoderRun.RawRpmExact | src/service/common/encoder/src/encoder_service.c:157-161 | up to 35791 pulses the speed is the pulses per minute and round, rounded toward zero; the other direction gives the negated speed |
| EncoderRun.OnePulseDown | src/service/common/encoder/src/encoder_service.c:157-161 | one pulse downward in 20 ms at 1320 pulses per round is -2 rpm |
| EncoderRun.WindowLength | src/service/common/encoder/src/encoder_service.c:155 | a window never holds more than the configured number of samples, also across the loop counter's wrap |
| EncoderRun.EstimateTimes | src/service/common/encoder/src/encoder_service.c:155 | until the loop counter wraps, estimates are made at iterations 1, 1 + n, 1 + 2n and so on |
| EncoderRun.RegistersDriveRun | src/service/common/encoder/src/encoder_service.c:94-103 | registers that count the true positions modulo 2^16 take the service from each state of a run to the next |
| EncoderRun.CounterFollows | src/service/common/encoder/src/encoder_service.c:93-151 | in the service, flags and direction of a channel depend on that channel's readings alone |
| EncoderRun.Accumulates | src/service/common/encoder/src/encoder_service.c:141-148 | in every window, understood or not, the accumulator is the sum of the moves, each with the sign of its decided direction, in 16 bits |
| EncoderRun.DecidedIsPath | src/service/common/encoder/src/encoder_service.c:141-148 | for an understood window that sum is the path length |
| EncoderRun.FirstMoveDownMisread | src/service/common/encoder/src/encoder_service.c:26-147 | the misunderstood sample at a concrete input: 1000 to 990 on channel 0 reads as 65526 pulses upward |
| EncoderRun.AtMostOneBadWindow | src/service/common/encoder/src/encoder_service.c:26-151 | at most one estimate per run rests on a misunderstood sample, and only on channel 0 |
| EncoderRun.ShortWindowsFit | src/service/common/encoder/src/encoder_service.c:18 | windows of up to 238 samples cannot overflow the product |
| EncoderRun.RawSpeedAsDecided | src/service/common/encoder/src/encoder_service.c:141-161 | the raw speed of every estimate of a run, understood or not, is that of the decided moves of its window and of the last decision |
| EncoderRun.RawSpeed | src/service/common/encoder/src/encoder_service.c:141-161 | the raw speed of every understood estimate, from the true positions and the clock, rounded toward zero; the true displacement iff the window is one-way |
| EncoderRun.RawSpeedOfBadWindow | src/service/common/encoder/src/encoder_service.c:26-161 | what the one bad window reports: its misunderstood downward move is subtracted from the path, and counts as upward if it is the last |
| EncoderRun.FilterFollows | src/service/common/encoder/src/encoder_service.c:163-196 | each channel's filter has seen exactly that channel's raw speeds; the estimate counter stops at twenty |
| EncoderRun.Publication | src/service/common/encoder/src/encoder_service.c:178-213 | publication happens at the 21st estimate and every later one, with the raw speed and the mean of the last ten outputs |
| EncoderRun.PublishedMean | src/service/common/encoder/src/encoder_service.c:178-213 | every published speed is a tenth of the sum of the last ten outputs, rounded toward zero |
| EncoderRun.SteadySpeedIsReported | src/service/common/encoder/src/encoder_service.c:163-213 | a steady raw speed is published within 3 rpm from the 32nd such estimate on |
| EncoderRun.SteadyUnderstood | src/service/common/encoder/src/encoder_service.c:26-151 | from the second sample of a steady motion on, every sample is understood |
| EncoderRun.SteadyRaw | src/service/common/encoder/src/encoder_service.c:141-161 | every window of a steady motion gives the same raw speed, that of the wheel rounded toward zero |
| EncoderRun.EstimatesHappen | src/service/common/encoder/src/encoder_service.c:155 | every stretch of the configured number of iterations holds an estimate |
| EncoderRun.SteadyWheelIsReported | src/service/common/encoder/src/encoder_service.c:90-213 | from true motion to message: 33 windows and two samples after a wheel began to move steadily, every estimate is published, with the wheel's speed as raw speed and within 3 rpm of it as filtered speed |
| SbusChannels.UnpackPack | src/module/sbus/include/sbus/sbus.h:9-14 | any sixteen 11-bit channels survive packing into 22 bytes and unpacking |
| SbusChannels.PackUnpack | src/module/sbus/include/sbus/sbus.h:9-14 | any 22 bytes survive unpacking and packing; both are the same number in two bases |
| SbusChannels.ChannelWindow | src/module/sbus/src/sbus.c:73-114 | channel k is eleven bits of the payload number from bit 11k on |
| SbusChannels.ChannelInTwoBytes | src/module/sbus/src/sbus.c:74-114 | the source's shift-or-mask over two bytes is the base-2048 digit |
| SbusChannels.ChannelInThreeBytes | src/module/sbus/src/sbus.c:78-110 | the same over three bytes |
| SbusChannels.ExpressionsUnpack | src/module/sbus/src/sbus.c:73-114 | all sixteen channel expressions together are the base conversion of the payload |
| Sbus.BuildMessage | src/module/sbus/src/sbus.c:73-122 | the message filled in through the pointer holds the base-2048 digits of the payload and the flag bits |
| Sbus.FlagsInNumbers | src/module/sbus/src/sbus.c:116-122 | bits 7 and 6 of the flag byte are the digital channels, as 0x80 and 0x40; bit 5 is frame loss, bit 4 fault protection |
| Sbus.SbusDecoder.Decode | src/module/sbus/src/sbus.c:35-71 | one byte: new state, index and buffer; a message only when a frame is complete, otherwise untouched |
| Sbus.FeedChunks | src/module/sbus/src/sbus.c:35-71 | feeding in chunks is feeding at once |
| Sbus.NextParses | src/module/sbus/src/sbus.c:37-69 | each byte moves from the input to the frame in progress and changes nothing about what will be parsed |
| Sbus.FeedRefinesParse | src/module/sbus/src/sbus.c:35-71 | from any state, the frames emitted are those of the whole-string parser on pending and new bytes |
| Sbus.ChunksAreParsed | src/module/sbus/src/sbus.c:31-71 | from any state, however the bytes are cut into any number of chunks, the decoder emits what the parser finds in pending bytes and concatenation |
| Sbus.IndexInBuffer | src/module/sbus/src/sbus.c:35-69 | after every byte the buffer index lies in 0..24, and is 24 exactly when that byte completed a frame |
| Sbus.GapResynchronises | src/module/sbus/src/sbus.c:35-71 | bytes other than the head byte bring the decoder back to waiting iff they outlast the frame in progress, at most 24 |
| Sbus.ParseTransmission | src/module/sbus/src/sbus.c:38-66 | well-formed frames behind gaps without head bytes are all found, in order |
| Sbus.BadFrameDropped | src/module/sbus/src/sbus.c:52-69 | 25 bytes that start with the head byte and do not end in the tail byte are dropped as a whole, and the decoder waits again |
| Sbus.FramesAfterGap | src/module/sbus/src/sbus.c:35-71 | from any state, after 24 bytes without a head byte every later frame is delivered, in order |
| MsgQueue.Queue.Publish | src/service/common/encoder/src/encoder_service.c:209-212 | the loop run without any other thread in between ends within two tries and leaves the new value last |
| QueueSharing.InvKept | src/service/robot_tbot/speed_control/src/speed_control_service.c:100-116 | every put, purge and get of every thread keeps the queue a tail of the publication history |
| QueueSharing.SharedQueue | src/app/tbot/tbot_interface.c:62-72 | under any interleaving: order, no duplicates, newest value at capacity one, nothing newest lost once no producer is in its loop |
| QueueSharing.LoopEnds | src/service/common/encoder/src/encoder_service.c:209-212 | for any capacity and whatever consumers do between its calls, a producer's loop without a competing producer publishes its value next, after at most put, purge, put |
| QueueSharing.LoopAlone | src/service/common/encoder/src/encoder_service.c:209-212 | as calls on the shared queue, the loop of a lone producer is a put, or put, purge, put, and leaves what the uncontended publish leaves |
| MotionControl.LimitExact | src/service/robot_tbot/motion_control/src/motion_control_service.c:49-76 | a running wheel steps by at most 8 rpm toward the target iff the difference fits 16 bits; a wheel at rest jumps |
| MotionControl.StepInNumbers | src/service/robot_tbot/motion_control/src/motion_control_service.c:49-76 | for all 16-bit inputs: from rest the target, else the difference limited to 3 away from rest and 8 toward it; what happens where the difference wraps |
| MotionControl.ReachesTarget | src/service/robot_tbot/motion_control/src/motion_control_service.c:49-76 | a fixed target is reached without overshoot in ceil(distance / 3) steps and kept |
| MotionControl.CommandsFollow | src/service/robot_tbot/motion_control/src/motion_control_service.c:49-119 | over a run with changing targets within a bound of at most 16383 rpm, commands keep to the bound and every step goes toward its target without overshoot, by at most 3 rpm away from rest and 8 toward it |
| MotionControl.BrakeExact | src/service/robot_tbot/motion_control/src/motion_control_service.c:49-76 | a zero target brakes by 8 rpm a step for every speed but -32768 |
| MotionControl.ZeroTargets | src/service/robot_tbot/motion_control/src/motion_control_service.c:101-110 | no motion asks for no wheel speed |
| MotionControl.TargetsInNumbers | src/service/robot_tbot/motion_control/src/motion_control_service.c:101-110 | each wheel's target is 60 (v -+ 0.185 w) / (2 pi 0.0188), rounded toward zero, the right one negated |
| MotionControl.MirrorTargets | src/service/robot_tbot/motion_control/src/motion_control_service.c:101-110 | mirrored motions ask for mirrored wheel speeds |
| MotionControl.StickTargets | src/service/robot_tbot/motion_control/src/motion_control_service.c:101-110 | motions within twice the stick range ask for at most 1300 rpm |
| MotionControl.WheelsFollowTargets | src/service/robot_tbot/motion_control/src/motion_control_service.c:90-119 | each wheel runs through the commands of its own targets |
| MotionControl.TameWheels | src/service/robot_tbot/motion_control/src/motion_control_service.c:90-119 | received motions that ask for speeds within a bound keep both wheels within it, from start on |
| MotionControl.MotionService.Step | src/service/robot_tbot/motion_control/src/motion_control_service.c:96-137 | one iteration: nothing without a message; with one, both wheels approach it and are published |
| Coordinator.RecentHit | src/service/robot_tbot/coordinator/src/coordinator_service.c:93-136 | a poll that finds a message makes it the recent one |
| Coordinator.RecentMiss | src/service/robot_tbot/coordinator/src/coordinator_service.c:113-136 | the counter runs out exactly when the message leaves the window of seven polls |
| Coordinator.TickFollows | src/service/robot_tbot/coordinator/src/coordinator_service.c:83-170 | one tick keeps the state equal to what the input history calls for |
| Coordinator.FollowsHistory | src/service/robot_tbot/coordinator/src/coordinator_service.c:53-182 | after any input history, connection, mode, stop, counters and motions are the history's |
| Coordinator.ReachableStates | src/service/robot_tbot/coordinator/src/coordinator_service.c:60-136 | counters stay in 0..6; connected iff one of the last seven polls found a message; disconnected implies no stop and CAN mode |
| Coordinator.ReceiverDecides | src/service/robot_tbot/coordinator/src/coordinator_service.c:83-122 | the newest receiver message of seven polls decides: channel 6 above 0 is the stop, channel 7 within 0.00001 of 0 is remote control, channels 2 and -0 are the motion |
| Coordinator.CanDecides | src/service/robot_tbot/coordinator/src/coordinator_service.c:124-140 | in CAN mode the newest CAN motion of the last seven polls of that queue is the motion |
| Coordinator.SilentCan | src/service/robot_tbot/coordinator/src/coordinator_service.c:124-140 | without one there the robot stands still |
| Coordinator.CanLogGrows | src/service/robot_tbot/coordinator/src/coordinator_service.c:124-128 | that queue is polled by the ticks that end up in CAN mode, and by no others |
| Coordinator.SupervisorDecides | src/service/robot_tbot/coordinator/src/coordinator_service.c:143-148 | the newest supervisor command decides, however old |
| Coordinator.PublishesWhatHistoryCallsFor | src/service/robot_tbot/coordinator/src/coordinator_service.c:97-170 | the motion published by every tick as a function of the input history |
| Coordinator.TameMotions | src/service/robot_tbot/coordinator/src/coordinator_service.c:97-162 | inputs that ask for speeds within a bound never lead to a motion that asks for more |
| Coordinator.LostLinkReleasesEstop | src/service/robot_tbot/coordinator/src/coordinator_service.c:113-136 | seven silent polls release the emergency stop and hand over to CAN |
| Coordinator.CoordinatorService.PollReceiver | src/service/robot_tbot/coordinator/src/coordinator_service.c:83-122 | the remote-control part of an iteration |
| Coordinator.CoordinatorService.PollMessenger | src/service/robot_tbot/coordinator/src/coordinator_service.c:124-140 | the CAN part: the queue is read in CAN mode only |
| Coordinator.CoordinatorService.Step | src/service/robot_tbot/coordinator/src/coordinator_service.c:78-182 | one iteration: new state, what is taken from each queue, what is published |
| StopGuarantee.StopTickWritesRest | src/service/robot_tbot/coordinator/src/coordinator_service.c:157-162 | a tick under emergency stop writes no motion |
| StopGuarantee.TickEnters | src/service/robot_tbot/coordinator/src/coordinator_service.c:157-170 | a tick starts to write what the history calls for, and nothing while supervised |
| StopGuarantee.ReceivesWhatWasCalledFor | src/service/robot_tbot/coordinator/src/coordinator_service.c:83-170 | in every interleaving the motion thread receives motions that the poll history called for, in order, none twice, and moved the wheels by exactly those; between ticks the newest is queued or was the last received |
| StopGuarantee.PublishedWithinThree | src/service/robot_tbot/coordinator/src/coordinator_service.c:164-169 | whatever the reader does in between, three steps of the coordinator publish |
| StopGuarantee.HaltsOncePublished | src/service/robot_tbot/coordinator/src/coordinator_service.c:157-170 | from the first publish under stop on, the queue never holds an older motion |
| StopGuarantee.HaltedRun | src/service/robot_tbot/motion_control/src/motion_control_service.c:99-134 | while halted only rest is received, and each reception brakes both wheels by 8 rpm; the wrap of -32768 included |
| StopGuarantee.BrakedToRest | src/service/robot_tbot/motion_control/src/motion_control_service.c:49-76 | n receptions of rest stop a wheel iff n >= ceil(speed / 8), or 4097 from -32768; never past zero otherwise |
| StopGuarantee.StopReachesWheels | src/service/robot_tbot/motion_control/src/motion_control_service.c:99-134 | in every interleaving, from the coordinator's next successful put on, both wheel targets are at rest iff enough receptions followed; each brakes by 8 rpm |
| StopGuarantee.StopWithinThreeSteps | src/service/robot_tbot/coordinator/src/coordinator_service.c:157-170 | three further steps of the coordinator contain that put |
| StopGuarantee.StopFromInputs | src/service/robot_tbot/coordinator/src/coordinator_service.c:78-170 | from power-on, for inputs that never ask for more than a bound of up to 16383 rpm, ceil(bound / 8) receptions after the stop took hold both wheel targets are zero, never past it |
| Pid.IntegralIsUnsaturatedSum | src/service/robot_tbot/speed_control/src/pid_controller.c:19-41 | the integral is ts times the sum of the errors of exactly the unsaturated steps |
| Pid.DemandOfRun | src/service/robot_tbot/speed_control/src/pid_controller.c:19-26 | over a run the demand is proportional to the error, to ts times the unsaturated sum, and to the last change of the error |
| Pid.SaturatesOnItsSide | src/service/robot_tbot/speed_control/src/pid_controller.c:28-33 | the output is the demand within the limit, and the limit on the demand's side beyond it |
| Pid.IntegralBounded | src/service/robot_tbot/speed_control/src/pid_controller.c:19-41 | with errors up to E, ki times the integral stays within umax + kp E + 2 kd E / ts + ki E ts, over any run |
| Pid.IntegralWithinOutput | src/service/robot_tbot/speed_control/src/pid_controller.c:19-41 | without derivative and with ki ts <= kp, the integral alone never exceeds the output limit |
| Pid.AntiWindup | src/service/robot_tbot/speed_control/src/pid_controller.c:28-35 | without derivative, the saturated output follows the sign of the error in every run iff ki ts <= kp |
| Pid.PidController.Update | src/service/robot_tbot/speed_control/src/pid_controller.c:19-43 | the demand limited on its own side, the integral charged unless limited, the error remembered |
| SpeedControl.PeriodsWithoutWindup | src/service/robot_tbot/speed_control/src/speed_control_service.c:57-95 | for all histories of targets and measurements the service never drives a wheel at full power against its error iff the loop period is at most 166 ms |
| SpeedControl.ControllersFollow | src/service/robot_tbot/speed_control/src/speed_control_service.c:73-95 | each controller is stepped once per target, with the newest measurement |
| SpeedControl.CommandsInNumbers | src/service/robot_tbot/speed_control/src/speed_control_service.c:57-95 | what each step commands each wheel, with the shipped gains, from the newest measurement |
| SpeedControl.IntegralsInNumbers | src/service/robot_tbot/speed_control/src/pid_controller.c:19-41 | what each step adds to each wheel's integral |
| SpeedControl.StepWithoutTarget | src/service/robot_tbot/speed_control/src/speed_control_service.c:73-95 | a step without a target only takes note of the measurement |
| SpeedControl.ErrorsInNumbers | src/service/robot_tbot/speed_control/src/speed_control_service.c:73-95 | the error logs of the two controllers, step by step |
| SpeedControl.FullPowerFollowsError | src/service/robot_tbot/speed_control/src/speed_control_service.c:73-95 | in every run of the service a demand beyond full power means the wheel is too slow in that direction |
| SpeedControl.FullPowerTowardTarget | src/service/robot_tbot/speed_control/src/speed_control_service.c:57-95 | for periods up to 166 ms, in every history, full power is commanded only toward the target, and by every demand beyond it; left and right |
| SpeedControl.SpeedService.Step | src/service/robot_tbot/speed_control/src/speed_control_service.c:73-121 | one iteration: new state, what remains in and is added to each of the four queues; commands stay within [-1, 1] of full power |
| RoundedControl.RoundedGains | src/service/robot_tbot/speed_control/src/speed_control_service.c:57-71 | the gains of the rounded loop are the source's decimals in single precision |
| RoundedControl.TwoTerms | src/service/robot_tbot/speed_control/src/pid_controller.c:19-26 | without derivative gain, the rounded sum of the two other terms is the demand |
| RoundedControl.StepNearExact | src/service/robot_tbot/speed_control/src/pid_controller.c:19-41 | rounding changes demands and integral shares by less than 0.0001 a step; a limited step leaves the integral alone |
| RoundedControl.StepsInNumbers | src/service/robot_tbot/speed_control/src/speed_control_service.c:73-95 | each wheel's controller is stepped by its own error, with its own tuning, from the newest measurement |
| RoundedControl.GoodKept | src/service/robot_tbot/speed_control/src/pid_controller.c:19-41 | for periods of at most 166 ms every step, in single precision, keeps the integral's share of the output below full power |
| RoundedControl.StaysGood | src/service/robot_tbot/speed_control/src/speed_control_service.c:73-95 | so does every history of targets and measurements |
| RoundedControl.SlowLoopFights | src/service/robot_tbot/speed_control/src/speed_control_service.c:57-95 | for every longer period a run in single precision drives the left wheel at full power against its error |
| RoundedControl.PeriodsWithoutWindup | src/service/robot_tbot/speed_control/src/speed_control_service.c:57-95 | in single precision, for all histories, no wheel is driven at full power against its error iff the loop period is at most 166 ms |
| CanBytes.DecodeEncode | src/service/robot_tbot/messenger/src/tbot/tbot_messenger.c:33-118 | every int32 survives the encoder's masks and the decoder's ors |
| CanBytes.EncodeDecode | src/service/robot_tbot/messenger/src/tbot/tbot_messenger.c:33-118 | every four bytes survive decoding and encoding |
| CanBytes.EncodedDigits | src/service/robot_tbot/messenger/src/tbot/tbot_messenger.c:30-92 | the four bytes of a word, most significant first, in numbers |
| CanBytes.DecodedWord | src/service/robot_tbot/messenger/src/tbot/tbot_messenger.c:109-138 | the word of four bytes, most significant first, in two's complement |
| TbotMessenger.EncodeCanMessage | src/service/robot_tbot/messenger/src/tbot/tbot_messenger.c:22-97 | identifier, length and bytes written for each feedback message; frame untouched for commands |
| TbotMessenger.DecodeCanMessage | src/service/robot_tbot/messenger/src/tbot/tbot_messenger.c:99-146 | the command in a frame; false and message untouched for unknown identifiers |
| TbotMessenger.CommandTable | src/service/robot_tbot/messenger/src/tbot/tbot_messenger.c:99-146 | which bytes of each command are which field, and which identifiers are accepted |
| TbotMessenger.FeedbackTable | src/service/robot_tbot/messenger/src/tbot/tbot_messenger.c:22-97 | identifier and byte order of each feedback message; commands are not encoded |
| TbotMessenger.DriveForward | src/service/robot_tbot/messenger/src/tbot/tbot_messenger.c:125-138 | the bytes of a motion command of 1.0 forward |
| TbotMessenger.PairRoundTrip | src/service/robot_tbot/messenger/src/tbot/tbot_messenger.c:30-123 | the bytes of each of the three speed messages decode as a motor command to the same pair |
| TbotMessenger.BytesRoundTrip | src/service/robot_tbot/messenger/src/tbot/tbot_messenger.c:72-123 | any eight bytes decoded as a motor command and encoded again are unchanged |
| TbotMessenger.MotionWordsToldApart | src/service/robot_tbot/messenger/src/tbot/tbot_messenger.c:125-138 | distinct motion words read as distinct floats, in their order, exactly up to a magnitude of 13107201 |
| TbotMessenger.CollidingPayloads | src/service/robot_tbot/messenger/src/tbot/tbot_messenger.c:125-138 | two payloads, words 13107201 and 13107202, that read as the same motion |
| TbotMessenger.HundredthsNear | src/service/robot_tbot/messenger/src/tbot/tbot_messenger.c:125-138 | for every word the float is within 3 of its hundredth |
| TbotMessenger.BothRoundingsCount | src/service/robot_tbot/messenger/src/tbot/tbot_messenger.c:125-138 | a word at which the conversion to float rounds before the division does |
| Vesc.IdIsSum | src/module/vesc/src/vesc_cmd_parser.c:42-43 | the three parts of an identifier do not overlap |
| Vesc.IdsDiffer | src/module/vesc/src/vesc_cmd_parser.c:35-144 | the identifier determines command and addressee |
| Vesc.ClampCommand | src/module/vesc/src/vesc_cmd_parser.c:30-33 | the result lies between the two limits, and is the command itself if that did |
| Vesc.ServoPosToFrame | src/module/vesc/src/vesc_cmd_parser.c:35-58 | the frame of a servo position |
| Vesc.DutyCycleToFrame | src/module/vesc/src/vesc_cmd_parser.c:60-76 | the frame of a duty cycle |
| Vesc.CurrentToFrame | src/module/vesc/src/vesc_cmd_parser.c:78-94 | the frame of a current |
| Vesc.CurrentBrakeToFrame | src/module/vesc/src/vesc_cmd_parser.c:96-112 | the frame of a brake current |
| Vesc.RpmToFrame | src/module/vesc/src/vesc_cmd_parser.c:114-126 | the frame of a speed |
| Vesc.PositionToFrame | src/module/vesc/src/vesc_cmd_parser.c:128-144 | the frame of a position |
| Vesc.FrameTable | src/module/vesc/src/vesc_cmd_parser.c:35-144 | all identifiers and payloads in numbers |
| Vesc.CanFrameToCmdPacket | src/module/vesc/src/vesc_cmd_parser.c:146-196 | what is accepted and which packet is filled in; a short-buffer frame with another command byte is accepted with the packet untouched |
| Vesc.PacketTable | src/module/vesc/src/vesc_cmd_parser.c:157-190 | what each word frame for controller 0x60 is read as |
| Vesc.ServoTable | src/module/vesc/src/vesc_cmd_parser.c:146-155 | what a short-buffer frame is read as, by its command byte |
| Vesc.OtherFramesRejected | src/module/vesc/src/vesc_cmd_parser.c:146-196 | no other identifier is accepted |
| Vesc.CountTable | src/module/vesc/src/vesc_cmd_parser.c:49-137 | the integer sent is the scaled, limited quantity, truncated, within rounding |
| Vesc.KindTable | src/module/vesc/src/vesc_cmd_parser.c:35-144 | the scales and limits of the five fixed-point commands |
| Vesc.ParsesPayload | src/module/vesc/src/vesc_cmd_parser.c:35-196 | frames built for this controller parse back to the integer sent; frames for others are rejected |
| Vesc.FixedError | src/module/vesc/src/vesc_cmd_parser.c:146-196 | a count read back errs by less than 0.006 counts and stays in range |
| Vesc.FixedNear | src/module/vesc/src/vesc_cmd_parser.c:146-196 | for every word, what is read is within 256 counts of it |
| Vesc.BothRoundingsCount | src/module/vesc/src/vesc_cmd_parser.c:146-196 | words at which the conversion to float rounds before the division does |
| Vesc.Quantised | src/module/vesc/src/vesc_cmd_parser.c:49-137 | what is sent lies between 1.01 counts below the clamped quantity and 0.01 counts above it, in single precision |
| Vesc.AgainstExact | src/module/vesc/src/vesc_cmd_parser.c:49-137 | exact arithmetic would lose less than one count and return every count; single precision sends the exact count or the next one |
| Vesc.Recount | src/module/vesc/src/vesc_cmd_parser.c:35-196 | a count read and sent again arrives as itself or its predecessor; as itself iff the product with the scale rounds up to it |
| Vesc.ServoCount251 | src/module/vesc/src/vesc_cmd_parser.c:49-165 | servo count 251 is sent again as 250 |
| Vesc.FixedPointRoundTrip | src/module/vesc/src/vesc_cmd_parser.c:35-196 | each fixed-point command comes back within a count and rounding; re-encoding gives the same count or its predecessor, with the exact condition |
| Vesc.RpmRoundTrip | src/module/vesc/src/vesc_cmd_parser.c:114-183 | speeds come back exactly |

## Left out

- LowPass: every product and sum is rounded; a compiler that fuses multiplication and addition rounds fewer times, which `NearExact` leaves room for but does not describe.
- Round: results too large for single precision, infinities and NaN are not modelled; quantities on the CAN side are finite.
- Counts: the quantity given to an encoder is any finite real, not only a float; inputs that are NaN pass the clamp in the source and are not covered. Count 251 is the example of a count that does not come back.
- Packet: float fields hold the rounded value; the single-precision bit patterns are not modelled.
- Hundredths: the division by 100 is rounded once, as division is in single precision.
- RawRpm: signed overflow is undefined in C; the model wraps in two's complement and `ProductFits` says when that happens.
- ClockRuns: a window in which no millisecond passes divides by zero in the source; runs in which that happens at an estimate are excluded.
- EncoderChannel: the source keeps one array per variable indexed by channel; the model keeps one object per channel.
- WheelRpm: the mix of float and double is computed in reals, and a target outside 16 bits, undefined in C, wraps.
- NextMemory: the controller objects compute in reals; `RoundedControl` has the loop in single precision as functions, without the objects and queues.
- PeriodsWithoutWindup: the one of `SpeedControl` is about reals; at 167 ms its run meets the output limit exactly, and `RoundedControl` shows that it fights the error in single precision as well.
- Publish: no other thread acts during the call; the loop beside other threads is `QueueSharing.LoopEnds`.
- PulledIn: a filter that sits exactly on a constant speed is shown to keep it in exact arithmetic (`AgainstExact`), and in single precision only to stay within one rpm of it.
- StopReachesWheels: speaks of the targets of motion control; the messenger's direct motor and PWM commands write to the speed and actuator queues past the coordinator and are not part of it.
- Carries: the frame identifier is a full 32-bit word; the definition of the kernel's frame structure is not part of this model.
- Head: the speed service takes the filtered speeds of an encoder message; the raw speeds only pass through to feedback and are dropped.
- The messenger's receive and transmit loops and CAN filters: they only move messages between queues and codecs.
- The normalisation of SBUS channels to [-1, 1] and the plausibility test on messages: single expressions.
- The actuators' duty mapping and dead zone, LEDs, thread creation, sanity checks on configuration, hardware access.
- The RC car's coordinator and messenger: easier copies of the tbot ones.
- The ICM42605 driver and the CANopen object dictionary: disabled vendor code and generated data.
