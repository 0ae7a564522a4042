# Robot real-time control: a verified model

This project models, in Dafny 4.11, the parts of a 14-axis robot's real-time control in which state, time and
concurrency meet, and proves what they promise.

**Enable manager.** A 250 Hz cycle reads 14 status words and writes 14 CiA 402 control words, while three service
handlers and a worker talk to it through flags and result slots. `Cia402` decodes status words, `EnableTick` is the
cycle as a function of state, parameters and what is read, and `EnableController` is the object with its fields, arrays
and loops, proved to do exactly that. `Protocol` interleaves cycles and handler steps freely; `Answers`, `AnswerTime`,
`Climbing`, `Descent`, `Quiet`, `FaultReset`, `ResetAnswers`, `DisableAnswers`, `DisableTime`, `LostDisable` and
`TrajectoryStop` prove what holds over all its runs. `ClosedLoop` and `Holding` add drives that follow section 10 of
CiA DSP 402 V2.0, `OrderlyDescent` and `OrderlyClimb` drives that also answer in time, and `Granularity` shows what
depends on steps the code does not make atomic.

**Trajectory start check.** `SeqLock` is the sequence lock between the controller's cycle and the goal callback, one
atomic word per step; `StartAdmission` is the check of a goal's first point.

**Drive preload gate.** `PreloadGate` is one EtherCAT drive over its process-data cycles.

**PLC bridge.** `Modbus` is the framing of the Modbus/TCP client (section 3.1.3 of the MODBUS Messaging on TCP/IP
Implementation Guide V1.0b; sections 6.3, 6.6 and 7 of the MODBUS Application Protocol V1.1b3), `PlcLogic`, `PlcRuntime`
and `PlcNode` the verified writes, against a PLC that may lose, ignore or fail to answer any request.

**Migration gate.** `DiffLegacy`, `Scalars` and `Decimal` model the flattening of configuration trees, what their
scalars mean, and their comparison.

## Reading guide

- Time is in natural nanoseconds; readings are numbers or "not finite"; parameters are arbitrary positive values.
- A history inside a result slot, the admission counter, and the publications of the sequence lock are auxiliary: no
  branch looks at them.
- "Cycle gap" is the longest time between two cycles. It is a parameter, and nothing is proved without it in a bound.

## Where code and expectation part

- A reset request in Failed that finds no fault reports Idle although no axis need be at rest (`Descent.FailedToIdle`);
  it is the only such way (`Descent.EveryWayToIdle`). `domains/rt_control/BLOCKED-questions.md:614` lets the manager
  become idle only after terminal confirmation. The model follows the code.
- While enabling, the cycle that reads a fault writes nothing, so the words of the cycle before stay for one cycle
  (`Quiet.FaultWhileEnablingWaitsOneCycle`). `domains/rt_control/BLOCKED-questions.md:448` commands the group quick stop
  when the fault is observed. In the other watched phases it does come on the same cycle.
- A disable that pre-empts an enable is forgotten without an answer on a cycle that reads a fault, exactly then, and
  never answered later (`LostDisable.CycleLosesDisable`, `LostDisable.LostIsNeverAnswered`).
- A disable of a failed robot does not forget the failure of the operation before: it is refused with it although all
  axes come to rest (`DisableAnswers.OldFailureRefusesDisable`).
- A disable whose controller switch ends after it was answered is answered again, and only then
  (`DisableAnswers.SecondAnswerIsLate`, `DisableAnswers.LateSwitchIsAnsweredAgain`).
- A late disable makes a failed robot overlook a reset it was asked for (`ResetAnswers.OverlookedResetWaitsOn`).
- A failed controller switch that an emergency overtakes stays on record and rolls back a later enable
  (`Granularity.StaleFlagRollsBack`).
- A snapshot read is exact only if the 64-bit counter does not wrap during it (`SeqLock.WrappedReadIsTorn`).
- The gate of the control word does not cover the configured default word: it holds exactly if there is one that does
  not enable operation (`PreloadGate.GateHoldsExactly`). Every profile of the repository has 0 there.
- A controller that has taken over and falls silent sends the drive back to its preload (last clause of
  `PreloadGate.TargetChangesAreEarned`).
- Paths with newlines are shifted wrongly by the migration gate (`DiffLegacy.PrependIsInsert`).
- The design notes speak of 13 axes; the code has 14, and so has the model.

## Model

| member | source | states |
|---|---|---|
| Answers.AnsweredExactlyOnce | src/rt_control/enable_manager/src/enable_manager_controller.cpp:343-406 | Between one admitted enable and the next, over any interleaving of cycles, handlers and worker, exactly one answer is appended to the enable slot. |
| Answers.ReplyIsOwn | src/rt_control/enable_manager/src/enable_manager_controller.cpp:356-406 | While an enable handler is at work, a ready slot holds the answer to its own enable: the number of published answers equals the number of admissions. |
| Answers.RunInv | src/rt_control/enable_manager/src/enable_manager_controller.cpp:343-406 | In every reachable state the phases of an enable imply that the enable owns the robot, and an enable that owns the robot is unanswered. |
| Answers.TickAnswers | src/rt_control/enable_manager/src/enable_manager_controller.cpp:876-901 | One cycle publishes at most one answer to the enable slot, always a refusal, and exactly when the pending enable stops being pending. |
| Answers.HistoryGrows | src/rt_control/enable_manager/src/enable_manager_controller.cpp:647-657 | Published answers are never changed or withdrawn, and only an admission moves the count of admissions. |
| AnswerTime.EnableIsAnsweredInTime | src/rt_control/enable_manager/src/enable_manager_controller.cpp:343-406 | With a handler that looks within a bound and a controller switch that ends within a bound, every admitted enable is answered, exactly once, within 5 batch timeouts, 4 delays, 11 cycle gaps, those two bounds and seven stage budgets. |
| AnswerTime.StretchIsBounded | src/rt_control/enable_manager/src/enable_manager_controller.cpp:361-385 | The wait in JtcActivating lasts no longer than the two bounds, because the handler first looks and then switches. |
| LostDisable.CycleLosesDisable | src/rt_control/enable_manager/src/enable_manager_controller.cpp:907-917 | Exactly when a cycle takes a disable request down without an answer or a disable: it reads a fault while enabling. |
| LostDisable.RequestGoesDown | src/rt_control/enable_manager/src/enable_manager_controller.cpp:208-312 | Whichever thread takes the step: a disable request goes down only by a cycle that answers it, starts the disable, or loses it that way. |
| LostDisable.LostIsNeverAnswered | src/rt_control/enable_manager/src/enable_manager_controller.cpp:876-895 | In every run, unless a disable handler is still switching the trajectory controller off when the disable is lost, its slot stays as it was until another disable is admitted. |
| Climbing.BatchesSeenUp | src/rt_control/enable_manager/src/enable_manager_controller.cpp:939-1018 | A later batch is entered, and the controller switch begins, only after one earlier cycle of this enable that read every axis of all earlier batches OperationEnabled, with no fault read since. |
| Climbing.SuccessIsEarned | src/rt_control/enable_manager/src/enable_manager_controller.cpp:377-400 | A published success comes from a switch that succeeded in JtcActivating, after a cycle of this enable that read all 14 axes OperationEnabled and with no fault read since. |
| Climbing.TickLadder | src/rt_control/enable_manager/src/enable_manager_controller.cpp:904-1025 | The only ways into Enabling, InterBatchDelay, JtcActivating and Enabled, each with what the cycle read: a cycle that ends in Enabled read all 14 axes OperationEnabled. |
| Climbing.BatchDecides | src/rt_control/enable_manager/src/enable_manager_controller.cpp:939-1054 | What a cycle without a fault makes of a batch: the first wrong axis fails it, all enabled complete it, its deadline fails it at the first late axis, else it goes on; a waiting disable is taken up instead of going further up, and the enable is answered with the pre-emption or the failure. |
| Climbing.PauseDecides | src/rt_control/enable_manager/src/enable_manager_controller.cpp:919-937 | What it makes of the pause: hand over to a waiting disable, next batch at the deadline, else wait. |
| Climbing.PauseIsInside | src/rt_control/enable_manager/src/enable_manager_controller.cpp:931-935 | The pause between batches never follows the last batch, so the increment stays inside the table. |
| Climbing.ClimbIsBounded | src/rt_control/enable_manager/src/enable_manager_controller.cpp:904-1054 | Whatever the drives report, a climb has no cycle later than 5 batch timeouts, 4 delays and 9 cycle gaps after its pick-up. |
| Climbing.NeverStranded | src/rt_control/enable_manager/src/enable_manager_controller.cpp:356-375 | If that time plus a pick-up cycle is below the service timeout, a robot in JtcActivating always has a handler that waits or switches, or the failed switch on record. |
| Climbing.HandlerStaysPresent | src/rt_control/enable_manager/src/enable_manager_controller.cpp:361-375 | The invariant of every run behind this: the enable handler outwaits the climb. |
| Climbing.DefaultsArePatient | src/rt_control/enable_manager/src/enable_manager_controller.cpp:34-40 | The default parameters meet that condition: 20.836 s with a 4 ms cycle against 30 s. |
| Climbing.StrandedStays | src/rt_control/enable_manager/src/enable_manager_controller.cpp:252-263 | Without a handler only a drive fault ends JtcActivating; every other step of every thread keeps it. |
| Descent.DescentIsBounded | src/rt_control/enable_manager/src/enable_manager_controller.cpp:677-782 | Every cycle of a descent comes within seven stage budgets of its entry, for any status words and any service traffic. |
| Descent.DescentComesToRest | src/rt_control/enable_manager/src/enable_manager_controller.cpp:685-902 | Once that time has passed the descent has reached Idle or Failed, and it left the way down at no earlier step. |
| Descent.TickMoves | src/rt_control/enable_manager/src/enable_manager_controller.cpp:745-781 | The measure: a cycle of a descent ends it, waits before its deadline, or uses up a budget and sets a new deadline. |
| Descent.TickEnters | src/rt_control/enable_manager/src/enable_manager_controller.cpp:677-683 | Every cycle that enters a descent, or starts the one pending since activation, sets its first deadline one stage timeout ahead. |
| Descent.TickConfirms | src/rt_control/enable_manager/src/enable_manager_controller.cpp:821-902 | A cycle from a descent or from ResetHigh to Idle has read all 14 axes confirmed at rest. |
| Descent.FailedToIdle | src/rt_control/enable_manager/src/enable_manager_controller.cpp:290-304 | Exactly when a cycle leaves Failed for Idle: a reset is requested, no disable is, and no axis reads a fault. |
| Descent.FailedToIdleWhilePowered | src/rt_control/enable_manager/src/enable_manager_controller.cpp:297-301 | So Idle can be reported while all axes read OperationEnabled. |
| Descent.EveryWayToIdle | src/rt_control/enable_manager/src/enable_manager_controller.cpp:215-312 | Whichever thread takes the step, Idle is reached only by a cycle that read all 14 axes confirmed at rest, or by that shortcut from Failed. |
| Descent.EntryFailureIsReported | src/rt_control/enable_manager/src/enable_manager_controller.cpp:876-901 | Through stage timeouts, the emergency fallback and any service calls, the failure recorded on entry stays, and it is what the enable, or the disable interrupted by an emergency, is answered with. |
| Descent.TickBlames | src/rt_control/enable_manager/src/enable_manager_controller.cpp:784-800 | The failure recorded on entry to a rollback or an emergency is the evidence of that very cycle: first faulted, first unexpected, first invalid or first late axis, with its word and batch. |
| Descent.TickKeepsFailure | src/rt_control/enable_manager/src/enable_manager_controller.cpp:755-781 | A descent with a recorded failure publishes that failure and no other. |
| Descent.DescentDecides | src/rt_control/enable_manager/src/enable_manager_controller.cpp:734-781 | How each cycle of a started descent goes on, in terms of the drives: next stage or end when the stage is over, else the emergency, or its end, when its time is up, with the first axis not at rest on record unless a failure was. |
| Descent.QuickStopDecides | src/rt_control/enable_manager/src/enable_manager_controller.cpp:802-819 | An emergency goes on to its own descent, from stage 0, exactly when no axis runs or its time is up. |
| DisableAnswers.DisableVerdict | src/rt_control/enable_manager/src/enable_manager_controller.cpp:846-868 | In every run the end of an admitted disable is answered once; achieved, with the robot idle, exactly if all axes were read at rest, no switch of the trajectory controller failed since the admission, and no failure is on record; otherwise refused with the first faulted axis, else the failed switch, else that failure. |
| DisableAnswers.EveryDisableAnswer | src/rt_control/enable_manager/src/enable_manager_controller.cpp:846-895 | Whichever thread takes the step, these are all the answers a disable can get: already disabled in Idle, the verdict of its descent, or the failure of the emergency that interrupted it. |
| DisableAnswers.OtherDescentEnds | src/rt_control/enable_manager/src/enable_manager_controller.cpp:821-902 | Every other descent ends in Idle exactly if all axes were read at rest and neither a failure at startup nor a required restart forbids it, and answers what it interrupted. |
| DisableAnswers.RecordAlwaysFits | src/rt_control/enable_manager/src/enable_manager_controller.cpp:784-800 | In every run no failure is on record while the robot goes up or is held, and one is in a rollback or an emergency. |
| DisableAnswers.OldFailureRefusesDisable | src/rt_control/enable_manager/src/enable_manager_controller.cpp:286-289 | A disable of a failed robot that still has the failure of an earlier operation on record is refused, whatever the drives do. |
| DisableAnswers.SecondAnswerIsLate | src/rt_control/enable_manager/src/enable_manager_controller.cpp:463-469 | In every run a disable gets a second answer only if at the first its request was up again or its controller switch was still under way. |
| DisableAnswers.LateSwitchIsAnsweredAgain | src/rt_control/enable_manager/src/enable_manager_controller.cpp:463-469 | A switch that ends in an idle robot asks again and is answered again. |
| DisableTime.DisableIsAnsweredInTime | src/rt_control/enable_manager/src/enable_manager_controller.cpp:409-476 | Every admitted disable that is not lost to a fault is answered within one batch timeout and delay, a bounded switch, a cycle gap and seven stage budgets. |
| ResetAnswers.ResetUnderWay | src/rt_control/enable_manager/src/enable_manager_controller.cpp:1057-1111 | A reset is pre-empted by a disable, succeeds exactly on the first cycle of its high phase that reads all axes at rest, and fails on the first other one past its deadline, with the first axis not at rest. |
| ResetAnswers.ResetIsTakenUp | src/rt_control/enable_manager/src/enable_manager_controller.cpp:227-304 | A requested reset waits behind another request, is answered at once if no axis is faulted, and starts its low cycle otherwise. |
| ResetAnswers.ResetIsAnsweredInTime | src/rt_control/enable_manager/src/enable_manager_controller.cpp:478-522 | Every admitted reset that no late disable makes the robot overlook is answered within its timeout and three cycle gaps. |
| ResetAnswers.OverlookedResetWaitsOn | src/rt_control/enable_manager/src/enable_manager_controller.cpp:286-290 | A disable in Failed goes before a reset, which then waits on unanswered. |
| TrajectoryStop.StepAsks | src/rt_control/enable_manager/src/enable_manager_controller.cpp:776-798 | The request to stop the trajectory controller goes up exactly when an emergency starts, by a drive or a stage timeout, or an activation is ambiguous, and down exactly when the worker takes it. |
| TrajectoryStop.EmergencyStopsController | src/rt_control/enable_manager/src/enable_manager_controller.cpp:598-606 | In every run, after an emergency began: the request is up, the worker is switching, it has succeeded, or no enable and no reset is admitted. |
| TrajectoryStop.RestartIsRequired | src/rt_control/enable_manager/src/enable_manager_controller.cpp:378-382 | In every run a restart is required exactly if an activation was ambiguous or a deactivation, by a disable or the worker, did not succeed before. |
| TrajectoryStop.DoubtLocksOut | src/rt_control/enable_manager/src/enable_manager_controller.cpp:332-336 | From such a step on no enable and no reset is ever admitted. |
| Holding.HeldOrStopped | src/rt_control/enable_manager/src/enable_manager_controller.cpp:187-270 | In Enabled, JtcActivating and JtcDeactivating a cycle starts an emergency exactly if it reads a fault, or in Enabled any axis not enabled; otherwise it leaves 0x000F on all 14 axes, unless it rolls a failed activation back. |
| Holding.HealthyRobotHolds | src/rt_control/enable_manager/src/enable_manager_controller.cpp:264-270 | With CiA 402 drives that do not fault, a held robot stays in operation: it leaves these phases for a disable or a rollback only, never for an emergency. |
| Holding.ClimbEndsHeld | src/rt_control/enable_manager/src/enable_manager_controller.cpp:1009-1021 | The cycle that enters JtcActivating has read every drive enabled and leaves it held. |
| Quiet.RestWritesZero | src/rt_control/enable_manager/src/enable_manager_controller.cpp:215-290 | Every cycle in Idle or Failed leaves 0x0000 on all 14 axes. |
| Quiet.DescentsEnableNothing | src/rt_control/enable_manager/src/enable_manager_controller.cpp:685-733 | From any descent of a run until the next admitted enable, no cycle writes 0x000F to any axis. |
| Quiet.QuietUntilNextEnable | src/rt_control/enable_manager/src/enable_manager_controller.cpp:208-313 | The same from every quiet state: only 0x0000, 0x0002, 0x0006, 0x0007 and 0x0080 are written. |
| Quiet.FaultStopsSameCycle | src/rt_control/enable_manager/src/enable_manager_controller.cpp:187-206 | A fault read in Enabled, JtcActivating or JtcDeactivating replaces every 0x000F on that same cycle by the emergency words. |
| Quiet.FaultWhileEnablingWaitsOneCycle | src/rt_control/enable_manager/src/enable_manager_controller.cpp:911-917 | While enabling, the cycle that reads a fault leaves all words in place; the emergency words come on the next. |
| FaultReset.PulseHitsFaultedTargets | src/rt_control/enable_manager/src/enable_manager_controller.cpp:1076-1085 | In every run 0x0080 is written only in ResetHigh, to a targeted axis that reads Fault on that cycle. |
| FaultReset.LowCycleComesFirst | src/rt_control/enable_manager/src/enable_manager_controller.cpp:1069-1075 | ResetHigh is preceded by a cycle that wrote 0x0000 to all axes, with the same targets. |
| FaultReset.EdgesNeedRecovery | src/rt_control/enable_manager/src/enable_manager_controller.cpp:1069-1096 | In every run, between two rising edges of the reset bit on one axis lies a cycle that read it out of Fault, or the zero cycle with which a later reset began. |
| FaultReset.EdgesWithinReset | src/rt_control/enable_manager/src/enable_manager_controller.cpp:1078-1096 | Within one high phase only a reading out of Fault separates them. |
| FaultReset.TickPulses | src/rt_control/enable_manager/src/enable_manager_controller.cpp:1057-1111 | Every cycle that leaves a reset, however it ends, leaves all 14 words 0x0000; targets are marked on entry only. |
| ClosedLoop.LaterBatchesStayOff | src/rt_control/enable_manager/src/enable_manager_controller.cpp:904-1025 | With CiA 402 drives at rest when enabling starts, no axis of a batch after the current one is ever powered. |
| ClosedLoop.PowerOnlyFalls | src/rt_control/enable_manager/src/enable_manager_controller.cpp:685-753 | From the first words of a descent to the next admitted enable no drive gains power, whatever it does between cycles. |
| ClosedLoop.CycleCalms | src/rt_control/enable_manager/src/enable_manager_controller.cpp:802-819 | The first cycle of a quiet phase already writes words that cannot lift the drive they go to. |
| ClosedLoop.CalmOnlyFalls | src/rt_control/enable_manager/src/enable_manager_controller.cpp:690-733 | Such a word stays harmless after the drive has moved. |
| ClosedLoop.ClimbGoesOneUp | src/rt_control/enable_manager/src/enable_manager_controller.cpp:957-983 | The word sent to an axis of the current batch asks its drive for the next state up and no other. |
| ClosedLoop.DescentGoesOneDown | src/rt_control/enable_manager/src/enable_manager_controller.cpp:690-733 | The word of a descent asks the drive for the next state down and no other. |
| ClosedLoop.DescentRequests | src/rt_control/enable_manager/src/enable_manager_controller.cpp:690-733 | A cycle of a descent asks running drives to switch operation off, switched-on ones to shut down, and no voltage from the others. |
| ClosedLoop.QuickStopRequests | src/rt_control/enable_manager/src/enable_manager_controller.cpp:802-819 | A cycle of the emergency asks running drives for a quick stop and keeps asking while they stop. |
| ClosedLoop.QuickStopStopsRunning | src/rt_control/enable_manager/src/enable_manager_controller.cpp:802-819 | The emergency word asks a running drive for a quick stop and any other for the next state down. |
| OrderlyDescent.DescentIsOrderly | src/rt_control/enable_manager/src/enable_manager_controller.cpp:734-781 | If each drive leaves its state one cycle gap before the stage timeout, a descent never falls back to the emergency stop and ends on a cycle that read every axis faulted or at rest. |
| OrderlyDescent.OrderlyDescentIsShort | src/rt_control/enable_manager/src/enable_manager_controller.cpp:734-753 | Such a descent takes at most its three stage budgets. |
| OrderlyClimb.ClimbSucceeds | src/rt_control/enable_manager/src/enable_manager_controller.cpp:904-1054 | Drives that start at rest and answer within a third of the batch timeout less a cycle gap: an undisturbed climb leaves only for JtcActivating, on a cycle that reads all 14 axes OperationEnabled; no batch times out or is found invalid. |
| OrderlyClimb.ClimbStaysOnCourse | src/rt_control/enable_manager/src/enable_manager_controller.cpp:939-1028 | Behind this: at every point of such a climb earlier batches run, later ones rest, and each axis of the current one is no later than its share of the time. |
| Granularity.FlagSurvives | src/rt_control/enable_manager/src/enable_manager_controller.cpp:252-253 | A failed switch stays on record through every step until a cycle serves JtcActivating without a fault. |
| Granularity.OnlyActivatingClearsFlag | src/rt_control/enable_manager/src/enable_manager_controller.cpp:215-226 | No other cycle clears it, in particular not the pick-up of the next enable. |
| Granularity.StaleFlagRollsBack | src/rt_control/enable_manager/src/enable_manager_controller.cpp:252-261 | In every run: a switch fails in JtcActivating and a cycle reads a fault before the failure is acted on; then the first later cycle in JtcActivating without a fault rolls back for that failure, and it is a later admitted enable that it rolls back. |
| Granularity.FreshFlagIsOwn | src/rt_control/enable_manager/src/enable_manager_controller.cpp:383-385 | With the record clear at the start, one found later comes from a switch that failed in between. |
| Granularity.LateClaimWedges | src/rt_control/enable_manager/src/enable_manager_controller.cpp:343-355 | If between the passed phase test of an enable and its claim a reset is called, fails and lets go, the late claim makes the enable the owner of a failed robot. |
| Granularity.WedgeIsForever | src/rt_control/enable_manager/src/enable_manager_controller.cpp:286-306 | No cycle and no service call ends that. |
| Granularity.CompletionIsTestThenStore | src/rt_control/enable_manager/src/enable_manager_controller.cpp:395-400 | The completion of an enable is its test followed by its stores. |
| Granularity.SplitCompletionHidesFault | src/rt_control/enable_manager/src/enable_manager_controller.cpp:395-400 | A cycle that reads a fault between them has its emergency overwritten; it restarts exactly if a later cycle reads an axis out of operation. |
| ClosedLoop.CycleOverWords | src/rt_control/enable_manager/src/enable_manager_controller.cpp:1140-1147 | A cycle that reads any encodings of the drives' states reads the drives as they are. |
| Cia402.DecodeIsExact | src/rt_control/enable_manager/src/enable_manager_controller.cpp:1149-1177 | Every word is decoded to exactly the state its bits 0 to 3, 5 and 6 show. |
| EnableTick.FrameShowsDrives | src/rt_control/enable_manager/src/enable_manager_controller.cpp:1140-1177 | Status words that show the drives' states are read as those states. |
| EnableController.ReadingsAreWords | src/rt_control/enable_manager/src/enable_manager_controller.cpp:1140-1147 | A finite reading is its word; any other is read as no state of the standard. |
| EnableTick.BatchesPartitionAxes | src/rt_control/enable_manager/src/enable_manager_controller.cpp:25-30 | The rows of the batch table contain each of the 14 axes exactly once, each in the row of its batch. |
| EnableTick.BatchOf | src/rt_control/enable_manager/src/enable_manager_controller.cpp:25-30 | Each axis is listed in the row of its batch. |
| EnableTick.FirstFault | src/rt_control/enable_manager/src/enable_manager_controller.cpp:911-917 | The scan finds the first faulted axis, or none exactly if there is none. |
| EnableTick.FirstUnsettled | src/rt_control/enable_manager/src/enable_manager_controller.cpp:685-733 | Likewise the first axis neither faulted nor confirmed at rest. |
| EnableTick.FirstInvalid | src/rt_control/enable_manager/src/enable_manager_controller.cpp:957-984 | Likewise the first axis in a state its place in the batch order forbids. |
| EnableTick.FirstPending | src/rt_control/enable_manager/src/enable_manager_controller.cpp:1076-1096 | Likewise the first axis a reset still waits for. |
| EnableTick.FirstLate | src/rt_control/enable_manager/src/enable_manager_controller.cpp:1031-1039 | The late axis is the first of the batch, in table order, that is not enabled, and the first of the batch if all are. |
| EnableController.EnableManagerController.Update | src/rt_control/enable_manager/src/enable_manager_controller.cpp:176-312 | One cycle over fields and arrays: the new state is the cycle function of the old one and the decoded readings. |
| EnableController.EnableManagerController.RefreshStatusWords | src/rt_control/enable_manager/src/enable_manager_controller.cpp:1140-1147 | Every status word is the reading, or 0xFFFF when that is not finite. |
| EnableController.EnableManagerController.WatchDrives | src/rt_control/enable_manager/src/enable_manager_controller.cpp:187-206 | The fault watch does to the fields what the watch function says. |
| EnableController.EnableManagerController.ServeIdle | src/rt_control/enable_manager/src/enable_manager_controller.cpp:215-247 | Idle takes up an enable, else a reset, else a disable. |
| EnableController.EnableManagerController.ServeFailed | src/rt_control/enable_manager/src/enable_manager_controller.cpp:286-306 | Failed takes up a disable, else a reset. |
| EnableController.EnableManagerController.ServeActivating | src/rt_control/enable_manager/src/enable_manager_controller.cpp:252-263 | JtcActivating holds or rolls back. |
| EnableController.EnableManagerController.ServeHold | src/rt_control/enable_manager/src/enable_manager_controller.cpp:264-270 | Enabled and JtcDeactivating hold until a disable is taken. |
| EnableController.EnableManagerController.UpdateEnable | src/rt_control/enable_manager/src/enable_manager_controller.cpp:904-1054 | The climb loop, with pre-emption, fault scan, pause and batch. |
| EnableController.EnableManagerController.CommandBatch | src/rt_control/enable_manager/src/enable_manager_controller.cpp:941-985 | The axis loop writes the words of the batch and finds the first invalid axis and whether the batch is complete. |
| EnableController.EnableManagerController.Position | src/rt_control/enable_manager/src/enable_manager_controller.cpp:946-954 | The nested search of the batch table classifies the axis as current, earlier or later. |
| EnableController.EnableManagerController.FindLate | src/rt_control/enable_manager/src/enable_manager_controller.cpp:1031-1039 | The loop over the batch row finds the late axis. |
| EnableController.EnableManagerController.UpdateDownward | src/rt_control/enable_manager/src/enable_manager_controller.cpp:685-782 | One cycle of a descent: words, stage, timeout, fallback or end. |
| EnableController.EnableManagerController.CommandDescent | src/rt_control/enable_manager/src/enable_manager_controller.cpp:692-733 | Its axis loop writes the words and finds what the stage rules ask for. |
| EnableController.EnableManagerController.RecordTimeout | src/rt_control/enable_manager/src/enable_manager_controller.cpp:755-773 | The first timeout of an operation without a failure becomes its failure. |
| EnableController.EnableManagerController.FinishDownward | src/rt_control/enable_manager/src/enable_manager_controller.cpp:821-902 | The end of a descent by phase, with its answer. |
| EnableController.EnableManagerController.StartEmergency | src/rt_control/enable_manager/src/enable_manager_controller.cpp:784-800 | The emergency takes over ownership and records failure and interrupted owner. |
| EnableController.EnableManagerController.UpdateEmergencyQuickStop | src/rt_control/enable_manager/src/enable_manager_controller.cpp:802-819 | One cycle of the quick stop. |
| EnableController.EnableManagerController.StartDownward | src/rt_control/enable_manager/src/enable_manager_controller.cpp:677-683 | A descent starts at stage 0 with a fresh deadline. |
| EnableController.EnableManagerController.BeginReset | src/rt_control/enable_manager/src/enable_manager_controller.cpp:227-241 | A reset marks the faulted axes, or answers that there is none. |
| EnableController.EnableManagerController.UpdateReset | src/rt_control/enable_manager/src/enable_manager_controller.cpp:1057-1111 | One cycle of a reset: pre-empted, low, or high. |
| EnableController.EnableManagerController.CommandReset | src/rt_control/enable_manager/src/enable_manager_controller.cpp:1076-1096 | Its axis loop writes the pulses and finds the first pending axis. |
| EnableController.EnableManagerController.HandleEnableAdmission | src/rt_control/enable_manager/src/enable_manager_controller.cpp:325-358 | Admission of an enable, exactly when the robot is idle, unowned and needs no restart. |
| EnableController.EnableManagerController.HandleActivation | src/rt_control/enable_manager/src/enable_manager_controller.cpp:377-400 | What the end of the controller switch does in each of its three results. |
| EnableController.EnableManagerController.HandleDisableAdmission | src/rt_control/enable_manager/src/enable_manager_controller.cpp:426-463 | Admission of a disable, pre-empting or claiming. |
| EnableController.EnableManagerController.HandleDeactivation | src/rt_control/enable_manager/src/enable_manager_controller.cpp:463-469 | The end of the deactivating switch, and the late request. |
| EnableController.EnableManagerController.HandleResetAdmission | src/rt_control/enable_manager/src/enable_manager_controller.cpp:495-514 | Admission of a reset. |
| EnableController.EnableManagerController.constructor | src/rt_control/enable_manager/src/enable_manager_controller.cpp:134-164 | The fields after configuration and activation are the initial state of every run. |
| SeqLock.ReadSnapshot | patches/ros2_controllers/0001-jtc-start-consistency.patch:190-221 | For any interleaving with the writer and any number of joints: a successful read returns the newest publication, the same at its first and last load, with its age or an invalidated one, if the counter has not wrapped meanwhile; a failed read met the writer in each of 1000 disjoint attempts. |
| SeqLock.UndisturbedIsExact | patches/ros2_controllers/0001-jtc-start-consistency.patch:201-213 | An attempt during which the counter stood still at an even number loaded exactly the newest publication. |
| SeqLock.HistoryInv | patches/ros2_controllers/0001-jtc-start-consistency.patch:56-68 | At every instant: counter, writer position and stored words fit together, and outside the lock the words are those of the newest publication. |
| SeqLock.Between | patches/ros2_controllers/0001-jtc-start-consistency.patch:56-68 | Publications are only added, and while the even counter stands still only deactivation touches the words. |
| SeqLock.WrappedReadIsTorn | patches/ros2_controllers/0001-jtc-start-consistency.patch:195-213 | The condition is needed: after exactly 2^63 publications a read passes the check with positions of two publications. |
| SeqLock.StopIsSeen | patches/ros2_controllers/0001-jtc-start-consistency.patch:153-155 | After a deactivation between two publications, every read before the next one finds the age invalid. |
| SeqLock.AdmissionSnapshot.Publish | patches/ros2_controllers/0001-jtc-start-consistency.patch:56-68 | The cycle writes one publication, and each of its stores is one step of the protocol. |
| SeqLock.AdmissionSnapshot.Invalidate | patches/ros2_controllers/0001-jtc-start-consistency.patch:153-155 | Deactivation invalidates the age without the lock. |
| SeqLock.AdmissionSnapshot.constructor | patches/ros2_controllers/0001-jtc-start-consistency.patch:105-113 | After configuration the snapshot is unwritten. |
| StartAdmission.ValidateTrajectoryStart | patches/ros2_controllers/0001-jtc-start-consistency.patch:172-270 | An admitted goal contains every configured joint within tolerance of one publication of acceptable age; a goal is refused only without the interface, after 1000 disturbed attempts, or because what was read does not admit it. |
| StartAdmission.AdmissibleMeans | patches/ros2_controllers/0001-jtc-start-consistency.patch:223-268 | Admission, number by number: fresh age, every joint named, and the difference of its positions between minus and plus its tolerance. |
| StartAdmission.OrderDoesNotMatter | patches/ros2_controllers/0001-jtc-start-consistency.patch:236-252 | Reordering the joints of a goal together with their positions never changes the verdict if it names each joint once. |
| StartAdmission.SomeOrderIsAdmitted | patches/ros2_controllers/0001-jtc-start-consistency.patch:236-268 | For all goals, names given twice included: some order of the entries is admitted exactly if the snapshot is fresh and every joint name has an entry that fits. |
| StartAdmission.EveryOrderIsAdmitted | patches/ros2_controllers/0001-jtc-start-consistency.patch:236-268 | Every order is admitted exactly if the snapshot is fresh and every joint has entries of its name that are all near it. |
| StartAdmission.FullGoalNamesEachJointOnce | patches/ros2_controllers/0001-jtc-start-consistency.patch:236-247 | An admitted goal with as many names as there are joints names each joint exactly once. |
| StartAdmission.Find | patches/ros2_controllers/0001-jtc-start-consistency.patch:238-250 | The search returns the first occurrence. |
| PreloadGate.OperationFollowsPreload | patches/ecat_icube/0001-rt-control-preload-and-diagnostics.patch:350-364 | Before an operational drive is given a word with low nibble 0xF, a cycle of the same session was sent whose target is the raw position the drive last reported when the target was written. |
| PreloadGate.TargetChangesAreEarned | patches/ecat_icube/0001-rt-control-preload-and-diagnostics.patch:388-408 | Every change of the target is the own raw position while not enabled; while enabled it needs the gate passed and, in this session, a command given in it and seen within tolerance. |
| PreloadGate.RunInv | patches/ecat_icube/0001-rt-control-preload-and-diagnostics.patch:426-429 | In every run: a preload that is pending or sent is a number, takeover implies OperationEnabled, and until takeover the target is the preload. |
| PreloadGate.StepExplained | patches/ecat_icube/0001-rt-control-preload-and-diagnostics.patch:330-480 | Where each fact about the drive after a step comes from; leaving OperationEnabled clears preload, takeover and the position command. |
| PreloadGate.FindSent | patches/ecat_icube/0001-rt-control-preload-and-diagnostics.patch:474-480 | A preloaded drive has sent its preload as target in this session. |
| PreloadGate.FindSeed | patches/ecat_icube/0001-rt-control-preload-and-diagnostics.patch:510-516 | A position command in hand was given in this session. |
| PreloadGate.GateOpens | patches/ecat_icube/0001-rt-control-preload-and-diagnostics.patch:556-596 | After a served target and a sent cycle the enabling word does reach the drive. |
| PreloadGate.ControllerIsFollowed | patches/ecat_icube/0001-rt-control-preload-and-diagnostics.patch:393-404 | In every run: once a command close to the actual position was served in an enabled session with a sent preload, every target served later in the session with a finite command is that command, scaled. |
| PreloadGate.CommandIsFollowed | patches/ecat_icube/0001-rt-control-preload-and-diagnostics.patch:393-404 | Served so, the target is the command times the factor plus the offset, and the command has taken over. |
| PreloadGate.TakeoverIsExact | patches/ecat_icube/0001-rt-control-preload-and-diagnostics.patch:394-400 | A command takes over exactly if it is finite and within the tolerance of the actual position. |
| PreloadGate.OtherWordsPass | patches/ecat_icube/0001-rt-control-preload-and-diagnostics.patch:350-369 | A requested word is written as it is unless it enables operation before the preload was sent; then 0x0007 is. |
| PreloadGate.PreloadLasts | patches/ecat_icube/0001-rt-control-preload-and-diagnostics.patch:455-467 | A sent preload is given up only by the step that ends the session. |
| PreloadGate.PassReadsState | patches/ecat_icube/0001-rt-control-preload-and-diagnostics.patch:455-467 | From the first new status word on, the state after each pass is the one the word shows. |
| PreloadGate.PositionIsRead | patches/ecat_icube/0001-rt-control-preload-and-diagnostics.patch:438-445 | The raw position is kept as read, and the position is it scaled. |
| PreloadGate.GateHoldsExactly | patches/ecat_icube/0001-rt-control-preload-and-diagnostics.patch:350-364 | The gate holds in every run exactly if the default control word is given and its low nibble is not 0xF. |
| PreloadGate.UnsafeDefaultBypassesGate | patches/ecat_icube/0001-rt-control-preload-and-diagnostics.patch:350-369 | For every layout with any other default, or none, there is a run whose first word enables an operational drive. |
| PreloadGate.EcCiA402Drive.ProcessData | patches/ecat_icube/0001-rt-control-preload-and-diagnostics.patch:330-472 | One channel, and the end of the pass after the last, over the fields of the drive. |
| PreloadGate.EcCiA402Drive.ProcessControlWord | patches/ecat_icube/0001-rt-control-preload-and-diagnostics.patch:337-370 | The clamp of the control word. |
| PreloadGate.EcCiA402Drive.ProcessTargetPosition | patches/ecat_icube/0001-rt-control-preload-and-diagnostics.patch:381-429 | Preload, hold or takeover of the target position. |
| PreloadGate.EcCiA402Drive.CheckStateChange | patches/ecat_icube/0001-rt-control-preload-and-diagnostics.patch:455-467 | The state follows the status word, and leaving OperationEnabled ends the session. |
| PreloadGate.EcCiA402Drive.OnPdoCycleSent | patches/ecat_icube/0001-rt-control-preload-and-diagnostics.patch:474-480 | A sent cycle turns a pending preload into a preload. |
| PreloadGate.EcCiA402Drive.ResetEnableSession | patches/ecat_icube/0001-rt-control-preload-and-diagnostics.patch:503-517 | The end of a session. |
| PreloadGate.EcCiA402Drive.constructor | patches/ecat_icube/0001-rt-control-preload-and-diagnostics.patch:287-295 | Initial values. |
| Modbus.RecvExact | src/rt_control/plc_node/plc_node/modbus_tcp.py:147-154 | For every way the stream is cut into chunks, the loop takes exactly the bytes asked for, or fails with the stream exhausted. |
| Modbus.AduLayout | src/rt_control/plc_node/plc_node/modbus_tcp.py:99-105 | Byte by byte: transaction, protocol 0, length and unit, high bytes first, then the protocol data unit. |
| Modbus.PackLayout | src/rt_control/plc_node/plc_node/modbus_tcp.py:169 | Register k is in bytes 2k and 2k + 1, high byte first. |
| Modbus.HeaderRefusals | src/rt_control/plc_node/plc_node/modbus_tcp.py:109-119 | A wrong header is refused by the first of its fields that is wrong. |
| Modbus.OtherRepliesAreReported | src/rt_control/plc_node/plc_node/modbus_tcp.py:121-135 | An exception or the reply to another function is read to its end and reported as what it is. |
| Modbus.ReceiveIsExact | src/rt_control/plc_node/plc_node/modbus_tcp.py:108-135 | A payload is returned and the rest left exactly if the stream starts with a well-formed unit for this transaction, unit and function. |
| Modbus.HeaderIsExact | src/rt_control/plc_node/plc_node/modbus_tcp.py:108-119 | A header is accepted exactly if it is that of a unit for this request with a length of 2 to 254. |
| Modbus.ReadIsExact | src/rt_control/plc_node/plc_node/modbus_tcp.py:157-171 | Registers are decoded and the rest left exactly if the stream starts with the reply that encodes them. |
| Modbus.EchoIsExact | src/rt_control/plc_node/plc_node/modbus_tcp.py:82-92 | A write is confirmed exactly by its own echo. |
| Modbus.LateReplyIsRefused | src/rt_control/plc_node/plc_node/modbus_tcp.py:110-113 | A reply to another transaction is refused after its header, which leaves the rest of it on the stream. |
| Modbus.ModbusTcpClient.Request | src/rt_control/plc_node/plc_node/modbus_tcp.py:94-135 | Transaction counter, frame sent, and outcome by the stream alone, for any chunks. |
| Modbus.ModbusTcpClient.ReadHoldingRegisters | src/rt_control/plc_node/plc_node/modbus_tcp.py:73-76 | 1 to 125 registers are returned exactly if the stream starts with their reply, which is consumed to its end; arguments out of range send nothing. |
| Modbus.ModbusTcpClient.WriteSingleRegister | src/rt_control/plc_node/plc_node/modbus_tcp.py:78-92 | Success exactly on the echo of this write. |
| WordBits.MasksDouble | src/rt_control/plc_node/plc_node/plc_logic.py:32 | Bit 0 is worth one and each bit twice the one before. |
| PlcLogic.OutputBits | src/rt_control/plc_node/plc_node/plc_logic.py:29-35 | Setting an output bit changes that bit and no other of the 16. |
| PlcLogic.RemoteControlBits | src/rt_control/plc_node/plc_node/plc_logic.py:25-26 | Enabling remote control sets bit 0 and no other. |
| PlcLogic.MatchesMeansBits | src/rt_control/plc_node/plc_node/plc_logic.py:38-51 | Agreement means that the bit of both words is the expected one. |
| PlcRuntime.RepairRemoteControl | src/rt_control/plc_node/plc_node/plc_runtime.py:34-54 | Success leaves bit 0 set and says whether it had to be written; an error of the PLC means the acknowledged write had no effect; nothing follows a failed request. |
| PlcRuntime.WriteOutputBit | src/rt_control/plc_node/plc_node/plc_runtime.py:57-97 | At most one bit of the command word changes; success means command and status agree; giving up takes at least the timeout, and never more than ceil(timeout/period)+1 rounds are made; nothing follows a failed request. |
| PlcNode.PlcNode.ServiceCallback | src/rt_control/plc_node/plc_node/plc_node.py:175-212 | A service call writes its output at most once and only with remote control enabled; success means the output is set; I/O errors close the connection. |
| PlcNode.PlcNode.PollOnce | src/rt_control/plc_node/plc_node/plc_node.py:216-246 | A poll writes no output; the connection stays open exactly if its last request, the status read, succeeded, and then the new snapshot shows, bit by bit, the words its last three requests returned; an error of the repair alone leaves it open and is reported. |
| PlcNode.PlcNode.EnsureClient | src/rt_control/plc_node/plc_node/plc_node.py:248-276 | A live connection is reused without a request; otherwise one attempt is made exactly if it is forced or due, and its time and outcome are recorded. |
| PlcNode.OutputsAreLastWritten | src/rt_control/plc_node/plc_node/plc_node.py:180-194 | After any sequence of calls each output bit is the last request actually written, and bits 3 to 15 are as at the start. |
| PlcNode.ControlIsOnlyEnabled | src/rt_control/plc_node/plc_node/plc_node.py:185-230 | After any sequence of calls bits 1 to 15 of the control word are as at the start, bit 0 is never cleared, and every written output leaves it set. |
| DiffLegacy.PrependIsInsert | tools/diff_legacy.py:235-253 | Prepending the start-up entry in the map equals inserting it at the head of the list in the tree exactly if no path into the list holds a newline; a tree that cannot be flattened stays so. |
| DiffLegacy.NewlinesAreMishandled | tools/diff_legacy.py:235-244 | For every entry and path: a newline at the end is lost, and one before the end keeps the path unshifted. |
| DiffLegacy.FlattenBelow | tools/diff_legacy.py:174-194 | Flattening below two prefixes gives the same paths and scalars, and the same errors. |
| DiffLegacy.FlattenNode | tools/diff_legacy.py:174-194 | The recursive walk builds that map, later entries replacing earlier ones and the first error ending it. |
| DiffLegacy.LaterReplaces | tools/diff_legacy.py:180-186 | Of several entries with the same path the last one counts. |
| DiffLegacy.EquivalentMeans | tools/diff_legacy.py:154-220 | Scalars read from nodes are equivalent exactly if they have the same type and mean the same: integers the same number however spelled, truth values the same truth, floating-point numbers and strings the same text. |
| Scalars.DecimalReadsBack | tools/diff_legacy.py:145-151 | Every integer reads back from its decimal spelling, with or without a sign. |
| Scalars.HexReadsBack | tools/diff_legacy.py:149-150 | Every natural number reads back from its hexadecimal spelling. |
| Scalars.UnderscoresMeanNothing | tools/diff_legacy.py:146 | An underscore anywhere in an integer changes nothing. |
| DiffLegacy.PrependSyncTolerance | tools/diff_legacy.py:235-253 | The loop over the profile builds the shifted map and adds the entry. |
| DiffLegacy.SplitEntry | tools/diff_legacy.py:115 | The index printed into a path is read back from it, whatever follows. |
| DiffLegacy.CompareMaps | tools/diff_legacy.py:223-232 | Every key on which the maps disagree is reported once, in sorted order and with what each holds; there is no difference exactly if keys are equal and values pairwise equivalent. |
| Decimal.RoundTrip | tools/diff_legacy.py:190 | A printed index reads back as itself. |

## Left out

Enable manager:
- Deactivation of the controller in the middle of an operation: it ends a run.
- Replies to refused calls, diagnostics, names, logging and ROS plumbing.
- Memory orders: all steps are sequentially consistent, a cycle is one step, and so is the publication of a result.
- Admission and completion of a handler are one step each; `Granularity` shows what is lost when they are split.
- The second waits of the handlers may end at any time, and a switch refused because another is in progress is the
  ambiguous result; a switch takes any time.
- Exactly-once answers over runs are claimed for enable only; when a disable gets none or two is proved in
  `LostDisable` and `DisableAnswers`.
- The signed 64-bit range of times, and timeouts that round to zero nanoseconds.
- Drive reactions that the CiA 402 state machine does not list, such as a spontaneous loss of enable without a fault.

Trajectory start check:
- Reordering of the relaxed loads and stores.
- The checks of a goal before this one: a first point has one position per name.

Drive preload gate:
- The channel update of the upstream driver, not part of the repository, is taken to write the default when it is
  overridden or the command is not finite, and the scaled command otherwise; a default that is not finite writes
  nothing.
- Truncation of a scaled command to the width of its object, and the modes of operation.
- Drives with automatic state transitions.

PLC bridge:
- Sockets, connection set-up, and the conversion of arguments to integers.
- Changes of the command or control register by anyone but the bridge.
- PlcNode.PlcNode.ReadIoSnapshot: reads the three registers one after the other; the code reads them in one request
  when they are adjacent.
- Freshness and layout of the published state.

Migration gate:
- DiffLegacy.FlattenNode: scalars carry their type and value already (`Scalars` reads them); YAML itself is not parsed.
- The overlay for two profiles and the fixed tables, which only replace keys.
- Digits and letters outside ASCII in hand-written paths and numbers.

Further parts of the repository (battery protocol, launch files, packaging gates, CANopen patch, diagnostics) are linear
checks or lean on code that is not there.
