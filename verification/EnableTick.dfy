/** One real-time cycle of the enable manager, as a function from the state
    before the cycle to the state after it.  Axis loops of the implementation
    appear here as quantifiers and as "first axis such that". */
module EnableTick {
  import opened Values
  import opened Cia402

  const AXES: nat := 14
  const BATCHES: nat := 5
  const ENABLE_BATCHES: seq<seq<nat>> :=
    [[0, 1, 2], [6, 7, 8], [3, 4, 5], [9, 10, 11], [12, 13]]

  datatype Phase =
    | StartupSanitizing | Idle | Enabling | InterBatchDelay | JtcActivating
    | Enabled | JtcDeactivating | Disabling | Rollback | ResetLow | ResetHigh
    | EmergencyQuickStop | EmergencyDisable | Failed

  datatype Owner = Nobody | ByEnable | ByDisable | ByReset | Internal

  datatype Reason =
    | Success | AlreadyEnabled | AlreadyDisabled | AlreadyClear | OperationInProgress
    | PreemptedByDisable | EnableBatchTimeout | EnableInvalidState | FaultDetected
    | UnexpectedDriveState | DisableTimeout | FaultRequiresReset | FaultResetTimeout
    | JtcActivateFailed | JtcDeactivateFailed | ControllerUpdateTimeout | RestartRequired

  /** Where an operation failed; joint and batch are -1 when there is none. */
  datatype Failure = Failure(reason: Reason, batch: int, joint: int, word: Word)

  const NO_FAILURE := Failure(Success, -1, -1, 0)

  datatype Outcome = Achieved(reason: Reason) | Refused(detail: Failure)

  /** A result slot.  `history` is an auxiliary variable: every outcome ever
      published to the slot, oldest first. */
  datatype Slot = Slot(ready: Flag, outcome: Outcome, history: seq<Outcome>)

  /** Parameters, in nanoseconds.  `tickGap` bounds the time between cycles. */
  datatype RawConfig = Config(batch: nat, stage: nat, delay: nat, reset: nat,
                              serviceTimeout: nat, tickGap: nat)
  type Config = c: RawConfig | c.batch > 0 && c.stage > 0 && c.reset > 0 && c.serviceTimeout > 0
    witness Config(4_000_000_000, 4_000_000_000, 200_000_000, 4_000_000_000, 30_000_000_000, 4_000_000)

  /** What one cycle reads: the time and the 14 status words with their decoding. */
  datatype Frame = Frame(now: nat, words: Words, states: States)

  type Words = w: seq<Word> | |w| == AXES witness seq(AXES, i => 0)
  type States = d: seq<DriveState> | |d| == AXES witness seq(AXES, i => NotReady)
  type Marks = m: seq<bool> | |m| == AXES witness seq(AXES, i => false)
  type Batch = b: nat | b < BATCHES
  type DescentStage = n: nat | n <= 2

  /** Everything the cycle reads and writes, by the names of the fields without
      their suffixes: `stopJtc` is the request to deactivate the trajectory
      controller in an emergency, `primary` the first failure of the operation,
      `interrupted` the owner an emergency took over from. */
  datatype State = State(
    phase: Phase,
    owner: Owner,
    interrupted: Owner,
    enableRequest: Flag,
    disableRequest: Flag,
    resetRequest: Flag,
    hardwareReady: Flag,
    activateFailed: Flag,
    stopJtc: Flag,
    restartRequired: Flag,
    deactivateFailed: Flag,
    preempt: Flag,
    enable: Slot,
    disable: Slot,
    reset: Slot,
    lastFailure: Failure,
    primary: Failure,
    targets: Marks,
    batch: Batch,
    stage: DescentStage,
    deadline: nat,
    commands: Words
  )

  // ---------- Axis predicates ----------

  /** The four Ti5 axes rest in ReadyToSwitchOn, all others in SwitchOnDisabled. */
  predicate ConfirmedTerminal(axis: nat, state: DriveState) {
    state == SwitchOnDisabled ||
    ((axis == 1 || axis == 2 || axis == 7 || axis == 8) && state == ReadyToSwitchOn)
  }

  /** The index of the first marked element, or -1. */
  function FirstTrue(marks: seq<bool>): (r: int)
    ensures -1 <= r < |marks|
    ensures r < 0 ==> forall i | 0 <= i < |marks| :: !marks[i]
    ensures r >= 0 ==> marks[r] && forall i | 0 <= i < r :: !marks[i]
  {
    if marks == [] then -1
    else if marks[0] then 0
    else
      var r := FirstTrue(marks[1..]);
      if r < 0 then -1 else r + 1
  }

  function FirstFault(states: States): (r: int)
    ensures -1 <= r < AXES
    ensures r < 0 <==> forall i | 0 <= i < AXES :: !IsFault(states[i])
    ensures r >= 0 ==> IsFault(states[r])
    ensures forall i | 0 <= i < r :: !IsFault(states[i])
  {
    var marks := seq(AXES, i requires 0 <= i < AXES => IsFault(states[i]));
    assert forall i | 0 <= i < AXES :: marks[i] <==> IsFault(states[i]);
    FirstTrue(marks)
  }

  function FirstNotIn(states: States, wanted: DriveState): (r: int)
    ensures -1 <= r < AXES
    ensures r < 0 <==> forall i | 0 <= i < AXES :: states[i] == wanted
    ensures r >= 0 ==> states[r] != wanted
    ensures forall i | 0 <= i < r :: states[i] == wanted
  {
    var marks := seq(AXES, i requires 0 <= i < AXES => states[i] != wanted);
    assert forall i | 0 <= i < AXES :: marks[i] <==> states[i] != wanted;
    FirstTrue(marks)
  }

  predicate Settled(axis: nat, state: DriveState) {
    IsFault(state) || ConfirmedTerminal(axis, state)
  }

  /** The first axis neither faulted nor confirmed terminal. */
  function FirstUnsettled(states: States): (r: int)
    ensures -1 <= r < AXES
    ensures r < 0 <==> forall i | 0 <= i < AXES :: Settled(i, states[i])
    ensures r >= 0 ==> !Settled(r, states[r])
    ensures forall i | 0 <= i < r :: Settled(i, states[i])
  {
    var marks := seq(AXES, i requires 0 <= i < AXES => !Settled(i, states[i]));
    assert forall i | 0 <= i < AXES :: marks[i] <==> !Settled(i, states[i]);
    FirstTrue(marks)
  }

  predicate AnyFault(states: States) {
    FirstFault(states) >= 0
  }

  predicate AllConfirmed(states: States) {
    forall i | 0 <= i < AXES :: ConfirmedTerminal(i, states[i])
  }

  function All(command: Word): (r: Words)
    ensures forall i | 0 <= i < AXES :: r[i] == command
  {
    seq(AXES, i => command)
  }

  // ---------- Reading the drives ----------

  function Decoded(words: Words): (r: States)
    ensures forall i | 0 <= i < AXES :: r[i] == Decode(words[i])
  {
    seq(AXES, i requires 0 <= i < AXES => Decode(words[i]))
  }

  /** The frame of a cycle that reads these words. */
  function FrameOf(now: nat, words: Words): Frame {
    Frame(now, words, Decoded(words))
  }

  /** A cycle reads the drives as they are, however each encodes its state. */
  lemma FrameShowsDrives(now: nat, words: Words, drives: States)
    requires forall i | 0 <= i < AXES :: Shows(words[i], drives[i])
    ensures FrameOf(now, words).states == drives
  {
    forall i | 0 <= i < AXES ensures Decode(words[i]) == drives[i] {
      DecodeIsExact(words[i], drives[i]);
    }
  }

  // ---------- Small updates ----------

  function Publish(slot: Slot, outcome: Outcome): Slot {
    Slot(Raised, outcome, slot.history + [outcome])
  }

  function Refusal(reason: Reason): Outcome {
    Refused(Failure(reason, -1, -1, 0))
  }

  function StartDescent(s: State, c: Config, phase: Phase, now: nat): State {
    s.(stage := 0, deadline := now + c.stage, phase := phase)
  }

  function StartEmergency(s: State, c: Config, reason: Reason, joint: nat, f: Frame): State
    requires joint < AXES
  {
    var failure := Failure(reason, if s.owner == ByEnable then s.batch else -1, joint, f.words[joint]);
    s.(interrupted := s.owner, primary := failure, lastFailure := failure, owner := Internal,
       deadline := f.now + c.stage, stopJtc := Raised, phase := EmergencyQuickStop)
  }

  // ---------- Going down ----------

  function DescentCommand(state: DriveState): Word {
    match state
    case OperationEnabled => 0x0007
    case SwitchedOn => 0x0006
    case _ => 0x0000
  }

  function QuickStopCommand(state: DriveState): Word {
    match state
    case OperationEnabled => 0x0002
    case QuickStopActive => 0x0002
    case SwitchedOn => 0x0006
    case _ => 0x0000
  }

  function DescentCommands(f: Frame): (r: Words)
    ensures forall i | 0 <= i < AXES :: r[i] == DescentCommand(f.states[i])
  {
    seq(AXES, i requires 0 <= i < AXES => DescentCommand(f.states[i]))
  }

  function QuickStopCommands(f: Frame): (r: Words)
    ensures forall i | 0 <= i < AXES :: r[i] == QuickStopCommand(f.states[i])
  {
    seq(AXES, i requires 0 <= i < AXES => QuickStopCommand(f.states[i]))
  }

  /** What the current stage of a descent waits for. */
  predicate StageDone(stage: DescentStage, states: States) {
    if stage == 0 then OperationEnabled !in states
    else if stage == 1 then OperationEnabled !in states && SwitchedOn !in states
    else FirstUnsettled(states) < 0
  }

  function Finish(s: State, f: Frame): State {
    var states := f.states;
    var first := FirstFault(states);
    var anyFault := first >= 0;
    var faulted := Failure(FaultRequiresReset, -1, first, if anyFault then f.words[first] else 0);
    match s.phase
    case StartupSanitizing =>
      if s.primary.reason != Success then s.(phase := Failed, owner := Nobody)
      else if anyFault then s.(lastFailure := faulted, phase := Failed, owner := Nobody)
      else s.(phase := Idle, owner := Nobody)
    case Disabling =>
      if anyFault then
        s.(disable := Publish(s.disable, Refused(faulted)), lastFailure := faulted,
           phase := Failed, owner := Nobody)
      else if s.deactivateFailed.Raised? then
        s.(disable := Publish(s.disable, Refusal(JtcDeactivateFailed)), phase := Failed, owner := Nobody)
      else if s.primary.reason != Success then
        s.(disable := Publish(s.disable, Refused(s.primary)), phase := Failed, owner := Nobody)
      else
        s.(disable := Publish(s.disable, Achieved(Success)), lastFailure := NO_FAILURE,
           phase := Idle, owner := Nobody)
    case Rollback =>
      s.(enable := Publish(s.enable, Refused(s.primary)),
         phase := if anyFault || s.restartRequired.Raised? then Failed else Idle, owner := Nobody)
    case EmergencyDisable =>
      var allTerminal := FirstUnsettled(states) < 0;
      s.(enable := if s.interrupted == ByEnable then Publish(s.enable, Refused(s.primary)) else s.enable,
         disable := if s.interrupted == ByDisable then Publish(s.disable, Refused(s.primary)) else s.disable,
         phase := if anyFault || !allTerminal || s.restartRequired.Raised? then Failed else Idle, owner := Nobody)
    case _ => s
  }

  /** The first stage timeout of an operation without an earlier failure
      becomes its primary failure. */
  function BlameTimeout(s: State, f: Frame): State {
    if s.primary.reason != Success then s
    else
      var unsettled := FirstUnsettled(f.states);
      var first := if unsettled < 0 then FirstFault(f.states) else unsettled;
      var word := if first >= 0 then f.words[first] else 0;
      var reason := if AnyFault(f.states) then FaultRequiresReset else DisableTimeout;
      s.(primary := Failure(reason, s.primary.batch, first, word),
         lastFailure := Failure(reason, -1, first, word))
  }

  function FallBack(s: State, c: Config, now: nat): State {
    s.(interrupted := s.owner, deadline := now + c.stage, stopJtc := Raised, phase := EmergencyQuickStop)
  }

  function Descend(s: State, c: Config, f: Frame): State {
    var s1 := s.(commands := DescentCommands(f));
    if StageDone(s.stage, f.states) then
      if s.stage < 2 then s1.(stage := s.stage + 1, deadline := f.now + c.stage)
      else Finish(s1, f)
    else if f.now >= s.deadline then
      var s2 := BlameTimeout(s1, f);
      if s.phase != EmergencyDisable then FallBack(s2, c, f.now) else Finish(s2, f)
    else s1
  }

  function QuickStop(s: State, c: Config, f: Frame): State {
    var s1 := s.(commands := QuickStopCommands(f));
    if OperationEnabled !in f.states || f.now >= s.deadline then
      StartDescent(s1, c, EmergencyDisable, f.now)
    else s1
  }

  // ---------- Going up ----------

  /** The batch whose table row lists the axis. */
  function BatchOf(axis: nat): (b: nat)
    requires axis < AXES
    ensures b < BATCHES && axis in ENABLE_BATCHES[b]
  {
    if axis in ENABLE_BATCHES[0] then 0
    else if axis in ENABLE_BATCHES[1] then 1
    else if axis in ENABLE_BATCHES[2] then 2
    else if axis in ENABLE_BATCHES[3] then 3
    else 4
  }

  /** The rows of the table partition the axes. */
  lemma BatchesPartitionAxes(axis: nat, batch: nat)
    requires axis < AXES && batch < BATCHES
    ensures axis in ENABLE_BATCHES[batch] <==> BatchOf(axis) == batch
    ensures forall i, j | 0 <= i < j < |ENABLE_BATCHES[batch]| :: ENABLE_BATCHES[batch][i] != ENABLE_BATCHES[batch][j]
  {
  }

  /** The pause that calls this never follows the last batch (`PauseIsInside`
      in module Climbing), so the second case is never taken. */
  function NextBatch(batch: Batch): Batch {
    if batch + 1 < BATCHES then batch + 1 else batch
  }

  function EnableCommand(batch: Batch, axis: nat, state: DriveState): Word
    requires axis < AXES
  {
    if BatchOf(axis) < batch then 0x000F
    else if BatchOf(axis) == batch then
      match state
      case SwitchOnDisabled => 0x0006
      case ReadyToSwitchOn => 0x0007
      case SwitchedOn => 0x000F
      case OperationEnabled => 0x000F
      case _ => 0x0000
    else 0x0000
  }

  function EnableCommands(batch: Batch, f: Frame): (r: Words)
    ensures forall i | 0 <= i < AXES :: r[i] == EnableCommand(batch, i, f.states[i])
  {
    seq(AXES, i requires 0 <= i < AXES => EnableCommand(batch, i, f.states[i]))
  }

  function HoldCommands(f: Frame): (r: Words)
    ensures forall i | 0 <= i < AXES :: r[i] == if f.states[i] == OperationEnabled then 0x000F else 0x0000
  {
    seq(AXES, i requires 0 <= i < AXES => if f.states[i] == OperationEnabled then 0x000F else 0x0000)
  }

  predicate OnTheWayUp(state: DriveState) {
    state == SwitchOnDisabled || state == ReadyToSwitchOn || state == SwitchedOn || state == OperationEnabled
  }

  /** A state no axis of this batch position may be in while the batch is current. */
  predicate InvalidFor(batch: Batch, axis: nat, state: DriveState)
    requires axis < AXES
  {
    (BatchOf(axis) < batch && state != OperationEnabled) ||
    (BatchOf(axis) == batch && !OnTheWayUp(state))
  }

  function FirstInvalid(batch: Batch, f: Frame): (r: int)
    ensures -1 <= r < AXES
    ensures r < 0 <==> forall i | 0 <= i < AXES :: !InvalidFor(batch, i, f.states[i])
    ensures r >= 0 ==> InvalidFor(batch, r, f.states[r])
    ensures forall i | 0 <= i < r :: !InvalidFor(batch, i, f.states[i])
  {
    var marks := seq(AXES, i requires 0 <= i < AXES => InvalidFor(batch, i, f.states[i]));
    assert forall i | 0 <= i < AXES :: marks[i] <==> InvalidFor(batch, i, f.states[i]);
    FirstTrue(marks)
  }

  predicate BatchComplete(batch: Batch, f: Frame) {
    forall i | 0 <= i < AXES :: BatchOf(i) == batch ==> f.states[i] == OperationEnabled
  }

  /** The first axis of the row, in table order, that is not OperationEnabled. */
  function FirstLate(row: seq<nat>, f: Frame): (r: nat)
    requires row != [] && forall i | 0 <= i < |row| :: row[i] < AXES
    ensures r in row
    ensures (forall i | 0 <= i < |row| :: f.states[row[i]] == OperationEnabled) ==> r == row[0]
    ensures forall i | 0 <= i < |row| && IsFirstLate(row, f, i) :: r == row[i]
  {
    if f.states[row[0]] != OperationEnabled || |row| == 1 then row[0]
    else
      assert forall i | 1 <= i < |row| && IsFirstLate(row, f, i) :: IsFirstLate(row[1..], f, i - 1);
      var r := FirstLate(row[1..], f);
      if f.states[r] != OperationEnabled then r else row[0]
  }

  /** The axis in this place of the row is late, and no axis before it is. */
  predicate IsFirstLate(row: seq<nat>, f: Frame, i: nat)
    requires i < |row| && forall j | 0 <= j < |row| :: row[j] < AXES
  {
    f.states[row[i]] != OperationEnabled && forall j | 0 <= j < i :: f.states[row[j]] == OperationEnabled
  }

  /** The enable is answered and the robot goes down on behalf of the disable
      that pre-empted it. */
  function HandOver(s: State, c: Config, outcome: Outcome, primary: Failure, now: nat): State {
    StartDescent(s.(enable := Publish(s.enable, outcome), owner := ByDisable, disableRequest := Lowered,
                    primary := primary), c, Disabling, now)
  }

  function HandOverPreempted(s: State, c: Config, now: nat): State {
    HandOver(s, c, Refusal(PreemptedByDisable), s.primary.(reason := Success), now)
  }

  function EnableFailed(s: State, c: Config, failure: Failure, now: nat): State {
    var s1 := s.(primary := failure, lastFailure := failure);
    if s.preempt.Raised? then
      var kept := if failure.reason == EnableBatchTimeout then failure.(reason := Success) else failure;
      HandOver(s1, c, Refused(failure), kept, now)
    else StartDescent(s1, c, Rollback, now)
  }

  function ClimbPause(s: State, c: Config, f: Frame): State {
    var s1 := s.(commands := HoldCommands(f));
    if s.preempt.Raised? then HandOverPreempted(s1, c, f.now)
    else if f.now >= s.deadline then
      s1.(batch := NextBatch(s.batch), deadline := f.now + c.batch, phase := Enabling)
    else s1
  }

  function BatchDone(s: State, c: Config, now: nat): State {
    if s.preempt.Raised? then HandOverPreempted(s, c, now)
    else if s.batch + 1 == BATCHES then s.(hardwareReady := Raised, phase := JtcActivating)
    else s.(deadline := now + c.delay, phase := InterBatchDelay)
  }

  function ClimbBatch(s: State, c: Config, f: Frame): State {
    var s1 := s.(commands := EnableCommands(s.batch, f));
    var invalid := FirstInvalid(s.batch, f);
    if invalid >= 0 then
      EnableFailed(s1, c, Failure(EnableInvalidState, s.batch, invalid, f.words[invalid]), f.now)
    else if BatchComplete(s.batch, f) then BatchDone(s1, c, f.now)
    else if f.now >= s.deadline then
      var late := FirstLate(ENABLE_BATCHES[s.batch], f);
      EnableFailed(s1, c, Failure(EnableBatchTimeout, s.batch, late, f.words[late]), f.now)
    else s1
  }

  /** Before a fault is acted on, a waiting disable is noted and dropped; the
      command words of the cycle before stay in place on that one cycle. */
  function Climb(s0: State, c: Config, f: Frame): State {
    var s := s0.(preempt := RaisedIf(s0.preempt.Raised? || s0.disableRequest.Raised?));
    var fault := FirstFault(f.states);
    if fault >= 0 then StartEmergency(s.(disableRequest := Lowered), c, FaultDetected, fault, f)
    else if s.phase == InterBatchDelay then ClimbPause(s, c, f)
    else ClimbBatch(s, c, f)
  }

  // ---------- Fault reset ----------

  function FaultTargets(f: Frame): (r: Marks)
    ensures forall i | 0 <= i < AXES :: r[i] == IsFault(f.states[i])
  {
    seq(AXES, i requires 0 <= i < AXES => IsFault(f.states[i]))
  }

  function BeginReset(s: State, f: Frame): State {
    var s1 := s.(resetRequest := Lowered, targets := FaultTargets(f));
    if AnyFault(f.states) then s1.(phase := ResetLow)
    else
      s1.(lastFailure := NO_FAILURE, reset := Publish(s.reset, Achieved(AlreadyClear)),
          phase := Idle, owner := Nobody)
  }

  predicate Pulsed(target: bool, state: DriveState) {
    target && state == Fault
  }

  function ResetCommands(targets: Marks, f: Frame): (r: Words)
    ensures forall i | 0 <= i < AXES :: r[i] == if Pulsed(targets[i], f.states[i]) then 0x0080 else 0x0000
  {
    seq(AXES, i requires 0 <= i < AXES => if Pulsed(targets[i], f.states[i]) then 0x0080 else 0x0000)
  }

  predicate ResetPending(target: bool, axis: nat, state: DriveState) {
    Pulsed(target, state) || !ConfirmedTerminal(axis, state)
  }

  function FirstPending(targets: Marks, f: Frame): (r: int)
    ensures -1 <= r < AXES
    ensures r < 0 <==> forall i | 0 <= i < AXES :: !ResetPending(targets[i], i, f.states[i])
    ensures r >= 0 ==> ResetPending(targets[r], r, f.states[r])
    ensures forall i | 0 <= i < r :: !ResetPending(targets[i], i, f.states[i])
  {
    var marks := seq(AXES, i requires 0 <= i < AXES => ResetPending(targets[i], i, f.states[i]));
    assert forall i | 0 <= i < AXES :: marks[i] <==> ResetPending(targets[i], i, f.states[i]);
    FirstTrue(marks)
  }

  function ResetPreempted(s: State, c: Config, now: nat): State {
    StartDescent(s.(disableRequest := Lowered, commands := All(0x0000),
                    reset := Publish(s.reset, Refusal(PreemptedByDisable)),
                    owner := ByDisable, primary := s.primary.(reason := Success)), c, Disabling, now)
  }

  function ResetPulse(s: State, f: Frame): State {
    var s1 := s.(commands := ResetCommands(s.targets, f));
    var pending := FirstPending(s.targets, f);
    if pending < 0 then
      s1.(lastFailure := NO_FAILURE, reset := Publish(s.reset, Achieved(Success)),
          phase := Idle, owner := Nobody)
    else if f.now >= s.deadline then
      var failure := Failure(FaultResetTimeout, -1, pending, f.words[pending]);
      s1.(lastFailure := failure, reset := Publish(s.reset, Refused(failure)),
          commands := All(0x0000), phase := Failed, owner := Nobody)
    else s1
  }

  function ResetCycle(s: State, c: Config, f: Frame): State {
    if s.disableRequest.Raised? then ResetPreempted(s, c, f.now)
    else if s.phase == ResetLow then
      s.(commands := All(0x0000), deadline := f.now + c.reset, phase := ResetHigh)
    else ResetPulse(s, f)
  }

  // ---------- The cycle ----------

  /** The fault watch that runs before the phase is served. */
  function Watch(s: State, c: Config, f: Frame): State {
    if s.phase == Enabled then
      var axis := FirstNotIn(f.states, OperationEnabled);
      if axis < 0 then s
      else StartEmergency(s, c, if IsFault(f.states[axis]) then FaultDetected else UnexpectedDriveState, axis, f)
    else if s.phase == JtcActivating || s.phase == JtcDeactivating then
      var axis := FirstFault(f.states);
      if axis < 0 then s else StartEmergency(s, c, FaultDetected, axis, f)
    else s
  }

  function IdleCycle(s0: State, c: Config, f: Frame): State {
    var s := s0.(commands := All(0x0000));
    if s.enableRequest.Raised? then
      s.(enableRequest := Lowered, batch := 0, preempt := Lowered, primary := NO_FAILURE,
         hardwareReady := Lowered, deadline := f.now + c.batch, phase := Enabling)
    else if s.resetRequest.Raised? then BeginReset(s, f)
    else if s.disableRequest.Raised? then
      s.(disableRequest := Lowered, lastFailure := NO_FAILURE,
         disable := Publish(s.disable, Achieved(AlreadyDisabled)), owner := Nobody)
    else s
  }

  function FailedCycle(s0: State, c: Config, f: Frame): State {
    var s := s0.(commands := All(0x0000));
    if s.disableRequest.Raised? then StartDescent(s.(disableRequest := Lowered), c, Disabling, f.now)
    else if s.resetRequest.Raised? then BeginReset(s, f)
    else s
  }

  function HoldCycle(s0: State, c: Config, f: Frame): State {
    var s := s0.(commands := All(0x000F));
    if s.disableRequest.Raised? then StartDescent(s.(disableRequest := Lowered), c, Disabling, f.now)
    else s
  }

  function ActivatingCycle(s: State, c: Config, f: Frame): State {
    if s.activateFailed.Raised? then
      var failure := Failure(JtcActivateFailed, -1, -1, 0);
      StartDescent(s.(activateFailed := Lowered, primary := failure, lastFailure := failure), c, Rollback, f.now)
    else s.(commands := All(0x000F))
  }

  function DescentCycle(s: State, c: Config, f: Frame): State {
    Descend(if s.deadline == 0 then StartDescent(s, c, s.phase, f.now) else s, c, f)
  }

  function Serve(s: State, c: Config, f: Frame): State {
    match s.phase
    case StartupSanitizing => DescentCycle(s, c, f)
    case Disabling => DescentCycle(s, c, f)
    case Rollback => DescentCycle(s, c, f)
    case EmergencyDisable => DescentCycle(s, c, f)
    case EmergencyQuickStop => QuickStop(s, c, f)
    case Idle => IdleCycle(s, c, f)
    case Failed => FailedCycle(s, c, f)
    case Enabling => Climb(s, c, f)
    case InterBatchDelay => Climb(s, c, f)
    case JtcActivating => ActivatingCycle(s, c, f)
    case Enabled => HoldCycle(s, c, f)
    case JtcDeactivating => HoldCycle(s, c, f)
    case ResetLow => ResetCycle(s, c, f)
    case ResetHigh => ResetCycle(s, c, f)
  }

  function Tick(s: State, c: Config, f: Frame): State {
    Serve(Watch(s, c, f), c, f)
  }

  /** Phases served by the three-stage walk down. */
  predicate Walking(phase: Phase) {
    phase == StartupSanitizing || phase == Disabling || phase == Rollback || phase == EmergencyDisable
  }

  /** Phases in which the fault watch applies. */
  predicate Watched(phase: Phase) {
    phase == Enabled || phase == JtcActivating || phase == JtcDeactivating
  }

  predicate Ascending(phase: Phase) {
    phase == Enabling || phase == InterBatchDelay
  }

  predicate Resetting(phase: Phase) {
    phase == ResetLow || phase == ResetHigh
  }

  /** Which part of the cycle a phase gets. */
  lemma TickByPhase(s: State, c: Config, f: Frame)
    ensures Walking(s.phase) ==> Tick(s, c, f) == DescentCycle(s, c, f)
    ensures Ascending(s.phase) ==> Tick(s, c, f) == Climb(s, c, f)
    ensures Resetting(s.phase) ==> Tick(s, c, f) == ResetCycle(s, c, f)
    ensures s.phase == Idle ==> Tick(s, c, f) == IdleCycle(s, c, f)
    ensures s.phase == Failed ==> Tick(s, c, f) == FailedCycle(s, c, f)
    ensures s.phase == EmergencyQuickStop ==> Tick(s, c, f) == QuickStop(s, c, f)
    ensures Watched(s.phase) ==>
              var w := Watch(s, c, f);
              Tick(s, c, f) ==
              if w.phase == EmergencyQuickStop then QuickStop(w, c, f)
              else if s.phase == JtcActivating then ActivatingCycle(s, c, f)
              else HoldCycle(s, c, f)
  {
    hide DescentCycle, Climb, ResetCycle, IdleCycle, FailedCycle, QuickStop, ActivatingCycle, HoldCycle,
         FirstFault, FirstNotIn;
  }
}
