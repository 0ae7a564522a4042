/** The enable manager as the object it is: fields and arrays updated in place by
    loops over the axes.  Each method is proved to do to the fields what the
    functions of EnableTick and Protocol say. */
module EnableController {
  import opened Values
  import opened Cia402
  import opened EnableTick
  import opened Protocol

  /** The word of a status-word interface, which carries a double and may hold none. */
  function WordOf(reading: Option<Word>): Word {
    match reading
    case None => 0xFFFF
    case Some(word) => word
  }

  /** A finite reading is its word; any other reads as no state of the standard, so
      it is neither operational nor at rest nor a fault. */
  lemma ReadingsAreWords(word: Word)
    ensures WordOf(Some(word)) == word && Decode(WordOf(None)) == Unknown
  {
    DecodeIsExact(0xFFFF, Unknown);
  }

  class EnableManagerController {
    const config: Config
    const commands: array<Word>
    const statusWords: array<Word>
    const resetTargets: array<bool>
    var phase: Phase
    var owner: Owner
    var interruptedOwner: Owner
    var enableRequest: Flag
    var disableRequest: Flag
    var resetRequest: Flag
    var enableHardwareReady: Flag
    var jtcActivateFailedRequest: Flag
    var emergencyJtcDeactivateRequest: Flag
    var restartRequired: Flag
    var jtcDeactivateFailed: Flag
    var enablePreemptRequested: Flag
    var enableResult: Slot
    var disableResult: Slot
    var resetResult: Slot
    var lastFailure: Failure
    var primaryFailure: Failure
    var currentBatch: Batch
    var downwardStage: DescentStage
    var stageDeadline: nat

    ghost predicate Valid()
      reads this
    {
      && commands.Length == AXES && statusWords.Length == AXES && resetTargets.Length == AXES
      && commands != statusWords && commands as object != resetTargets && statusWords as object != resetTargets
    }

    /** The field values, as the state the functions work on. */
    ghost function Now(): State
      reads this, commands, resetTargets
      requires Valid()
    {
      State(phase, owner, interruptedOwner, enableRequest, disableRequest, resetRequest, enableHardwareReady,
            jtcActivateFailedRequest, emergencyJtcDeactivateRequest, restartRequired, jtcDeactivateFailed,
            enablePreemptRequested, enableResult, disableResult, resetResult, lastFailure, primaryFailure,
            resetTargets[..], currentBatch, downwardStage, stageDeadline, commands[..])
    }

    /** What the current cycle has read. */
    ghost function Read(now: nat): Frame
      reads this, statusWords
      requires Valid()
    {
      FrameOf(now, statusWords[..])
    }

    method RefreshStatusWords(readings: seq<Option<Word>>)
      requires Valid() && |readings| == AXES
      modifies statusWords
      ensures forall i | 0 <= i < AXES :: statusWords[i] == WordOf(readings[i])
    {
      for axis := 0 to AXES
        invariant forall i | 0 <= i < axis :: statusWords[i] == WordOf(readings[i])
      {
        statusWords[axis] := WordOf(readings[axis]);
      }
    }

    method SetAllControlWords(controlWord: Word)
      requires Valid()
      modifies commands
      ensures commands[..] == All(controlWord)
    {
      for axis := 0 to AXES
        invariant forall i | 0 <= i < axis :: commands[i] == controlWord
      {
        commands[axis] := controlWord;
      }
    }

    method PublishEnable(outcome: Outcome)
      requires Valid()
      modifies this
      ensures Valid() && Now() == old(Now()).(enable := Publish(old(enableResult), outcome))
    {
      enableResult := Publish(enableResult, outcome);
    }

    method PublishDisable(outcome: Outcome)
      requires Valid()
      modifies this
      ensures Valid() && Now() == old(Now()).(disable := Publish(old(disableResult), outcome))
    {
      disableResult := Publish(disableResult, outcome);
    }

    method PublishReset(outcome: Outcome)
      requires Valid()
      modifies this
      ensures Valid() && Now() == old(Now()).(reset := Publish(old(resetResult), outcome))
    {
      resetResult := Publish(resetResult, outcome);
    }

    method Release(phase: Phase)
      requires Valid()
      modifies this
      ensures Valid() && Now() == old(Now()).(phase := phase, owner := Nobody)
    {
      this.phase := phase;
      owner := Nobody;
    }

    method StartDownward(phase: Phase, now: nat)
      requires Valid()
      modifies this
      ensures Valid() && Now() == StartDescent(old(Now()), config, phase, now)
    {
      downwardStage := 0;
      stageDeadline := now + config.stage;
      this.phase := phase;
    }

    /** The axis loop of FinishDownward. */
    method Survey(now: nat) returns (firstFault: int, allTerminal: bool)
      requires Valid()
      ensures firstFault == FirstFault(Read(now).states)
      ensures allTerminal <==> FirstUnsettled(Read(now).states) < 0
    {
      firstFault := -1;
      allTerminal := true;
      ghost var states := Read(now).states;
      for axis := 0 to AXES
        invariant -1 <= firstFault < axis
        invariant firstFault >= 0 ==> IsFault(states[firstFault])
        invariant forall i | 0 <= i < axis && (firstFault < 0 || i < firstFault) :: !IsFault(states[i])
        invariant allTerminal <==> forall i | 0 <= i < axis :: Settled(i, states[i])
      {
        var state := Decode(statusWords[axis]);
        if IsFault(state) {
          if firstFault < 0 {
            firstFault := axis;
          }
        } else if !ConfirmedTerminal(axis, state) {
          allTerminal := false;
        }
      }
    }

    method FinishDisabling(now: nat, firstFault: int)
      requires Valid() && phase == Disabling && firstFault == FirstFault(Read(now).states)
      modifies this
      ensures Valid() && Now() == Finish(old(Now()), Read(now))
    {
      hide FirstFault, FirstUnsettled, Decoded;
      if firstFault >= 0 {
        var failure := Failure(FaultRequiresReset, -1, firstFault, statusWords[firstFault]);
        PublishDisable(Refused(failure));
        lastFailure := failure;
        Release(Failed);
      } else if jtcDeactivateFailed.Raised? {
        PublishDisable(Refusal(JtcDeactivateFailed));
        Release(Failed);
      } else if primaryFailure.reason != Success {
        PublishDisable(Refused(primaryFailure));
        Release(Failed);
      } else {
        lastFailure := NO_FAILURE;
        PublishDisable(Achieved(Success));
        Release(Idle);
      }
    }

    method FinishStartup(now: nat, firstFault: int)
      requires Valid() && phase == StartupSanitizing && firstFault == FirstFault(Read(now).states)
      modifies this
      ensures Valid() && Now() == Finish(old(Now()), Read(now))
    {
      hide FirstFault, FirstUnsettled, Decoded;
      if primaryFailure.reason != Success {
        Release(Failed);
      } else if firstFault >= 0 {
        lastFailure := Failure(FaultRequiresReset, -1, firstFault, statusWords[firstFault]);
        Release(Failed);
      } else {
        Release(Idle);
      }
    }

    method FinishRollback(now: nat, anyFault: bool)
      requires Valid() && phase == Rollback && (anyFault <==> FirstFault(Read(now).states) >= 0)
      modifies this
      ensures Valid() && Now() == Finish(old(Now()), Read(now))
    {
      hide FirstFault, FirstUnsettled, Decoded;
      PublishEnable(Refused(primaryFailure));
      Release(if anyFault || restartRequired.Raised? then Failed else Idle);
    }

    method FinishEmergency(now: nat, anyFault: bool, allTerminal: bool)
      requires Valid() && phase == EmergencyDisable && (anyFault <==> FirstFault(Read(now).states) >= 0)
      requires allTerminal <==> FirstUnsettled(Read(now).states) < 0
      modifies this
      ensures Valid() && Now() == Finish(old(Now()), Read(now))
    {
      hide FirstFault, FirstUnsettled, Decoded;
      if interruptedOwner == ByEnable {
        PublishEnable(Refused(primaryFailure));
      } else if interruptedOwner == ByDisable {
        PublishDisable(Refused(primaryFailure));
      }
      Release(if anyFault || !allTerminal || restartRequired.Raised? then Failed else Idle);
    }

    method FinishDownward(now: nat)
      requires Valid()
      modifies this
      ensures Valid() && Now() == Finish(old(Now()), Read(now))
    {
      var firstFault, allTerminal := Survey(now);
      match phase
      case StartupSanitizing => FinishStartup(now, firstFault);
      case Disabling => FinishDisabling(now, firstFault);
      case Rollback => FinishRollback(now, firstFault >= 0);
      case EmergencyDisable => FinishEmergency(now, firstFault >= 0, allTerminal);
      case _ =>
    }

    /** One round of the axis loop of UpdateDownward. */
    method DescentOfAxis(axis: nat, state: DriveState) returns (command: Word, settled: bool)
      requires axis < AXES
      ensures command == DescentCommand(state)
      ensures settled <==> Settled(axis, state)
    {
      command, settled := 0x0000, true;
      match state {
        case OperationEnabled =>
          command := 0x0007;
          settled := false;
        case SwitchedOn =>
          command := 0x0006;
          settled := false;
        case ReadyToSwitchOn =>
          settled := ConfirmedTerminal(axis, state);
        case QuickStopActive | NotReady | Unknown =>
          settled := false;
        case FaultReactionActive | Fault | SwitchOnDisabled =>
      }
    }

    /** The axis loop of UpdateDownward: one command per axis, and what was seen. */
    method CommandDescent(now: nat)
      returns (anyOperationEnabled: bool, anySwitchedOn: bool, allNonfaultTerminal: bool, anyFault: bool,
               firstNonterminal: int)
      requires Valid()
      modifies commands
      ensures commands[..] == DescentCommands(Read(now))
      ensures anyOperationEnabled <==> OperationEnabled in Read(now).states
      ensures anySwitchedOn <==> SwitchedOn in Read(now).states
      ensures allNonfaultTerminal <==> firstNonterminal < 0
      ensures anyFault <==> AnyFault(Read(now).states)
      ensures firstNonterminal == FirstUnsettled(Read(now).states)
    {
      hide DescentCommand, DescentCommands, Settled, ConfirmedTerminal, FirstUnsettled, FirstFault, Decode;
      anyOperationEnabled, anySwitchedOn, allNonfaultTerminal := false, false, true;
      anyFault, firstNonterminal := false, -1;
      ghost var states := Read(now).states;
      for axis := 0 to AXES
        invariant forall i | 0 <= i < axis :: commands[i] == DescentCommand(states[i])
        invariant anyOperationEnabled <==> OperationEnabled in states[..axis]
        invariant anySwitchedOn <==> SwitchedOn in states[..axis]
        invariant allNonfaultTerminal <==> forall i | 0 <= i < axis :: Settled(i, states[i])
        invariant anyFault <==> exists i | 0 <= i < axis :: IsFault(states[i])
        invariant -1 <= firstNonterminal < axis
        invariant firstNonterminal >= 0 ==> !Settled(firstNonterminal, states[firstNonterminal])
        invariant forall i | 0 <= i < axis && (firstNonterminal < 0 || i < firstNonterminal) :: Settled(i, states[i])
      {
        var state := Decode(statusWords[axis]);
        assert states[..axis + 1] == states[..axis] + [state];
        var command, settled := DescentOfAxis(axis, state);
        anyOperationEnabled := anyOperationEnabled || state == OperationEnabled;
        anySwitchedOn := anySwitchedOn || state == SwitchedOn;
        allNonfaultTerminal := allNonfaultTerminal && settled;
        anyFault := anyFault || IsFault(state);
        if !settled && firstNonterminal < 0 {
          firstNonterminal := axis;
        }
        commands[axis] := command;
      }
      assert states[..AXES] == states;
    }

    method RecordTimeout(now: nat, anyFault: bool, firstNonterminal: int)
      requires Valid() && (anyFault <==> AnyFault(Read(now).states))
      requires firstNonterminal == FirstUnsettled(Read(now).states)
      modifies this
      ensures Valid() && Now() == BlameTimeout(old(Now()), Read(now))
    {
      var first := firstNonterminal;
      if first < 0 && anyFault {
        first := ScanFaults(now);
      }
      hide FirstFault, FirstUnsettled, Decoded;
      if primaryFailure.reason == Success {
        var reason := if anyFault then FaultRequiresReset else DisableTimeout;
        var word := if first >= 0 then statusWords[first] else 0;
        primaryFailure := Failure(reason, primaryFailure.batch, first, word);
        lastFailure := Failure(reason, -1, first, word);
      }
    }

    method NextStage(now: nat)
      requires Valid() && downwardStage < 2
      modifies this
      ensures Valid() && Now() == old(Now()).(stage := old(downwardStage) + 1, deadline := now + config.stage)
    {
      downwardStage := downwardStage + 1;
      stageDeadline := now + config.stage;
    }

    method FallBackToQuickStop(now: nat)
      requires Valid()
      modifies this
      ensures Valid() && Now() == FallBack(old(Now()), config, now)
    {
      interruptedOwner := owner;
      stageDeadline := now + config.stage;
      emergencyJtcDeactivateRequest := Raised;
      phase := EmergencyQuickStop;
    }

    method UpdateDownward(now: nat)
      requires Valid()
      modifies this, commands
      ensures Valid() && Now() == Descend(old(Now()), config, Read(now))
    {
      var anyOperationEnabled, anySwitchedOn, allNonfaultTerminal, anyFault, first := CommandDescent(now);
      hide FirstFault, FirstUnsettled, Decoded, DescentCommands, Finish, BlameTimeout, AnyFault, FallBack;
      assert Now() == old(Now()).(commands := DescentCommands(Read(now)));
      var advance := false;
      if downwardStage == 0 {
        advance := !anyOperationEnabled;
      } else if downwardStage == 1 {
        advance := !anyOperationEnabled && !anySwitchedOn;
      } else if allNonfaultTerminal {
        FinishDownward(now);
        return;
      }
      if advance {
        NextStage(now);
      } else if now >= stageDeadline {
        RecordTimeout(now, anyFault, first);
        if phase != EmergencyDisable {
          FallBackToQuickStop(now);
        } else {
          FinishDownward(now);
        }
      }
    }

    method RecordPrimary(failure: Failure)
      requires Valid()
      modifies this
      ensures Valid() && Now() == old(Now()).(primary := failure, lastFailure := failure)
    {
      primaryFailure := failure;
      lastFailure := failure;
    }

    method StartEmergency(reason: Reason, joint: nat, now: nat)
      requires Valid() && joint < AXES
      modifies this
      ensures Valid() && Now() == EnableTick.StartEmergency(old(Now()), config, reason, joint, Read(now))
    {
      hide Decoded;
      var batch := if owner == ByEnable then currentBatch as int else -1;
      RecordPrimary(Failure(reason, batch, joint, statusWords[joint]));
      FallBackToQuickStop(now);
      owner := Internal;
    }

    method UpdateEmergencyQuickStop(now: nat)
      requires Valid()
      modifies this, commands
      ensures Valid() && Now() == QuickStop(old(Now()), config, Read(now))
    {
      var anyOperationEnabled := false;
      ghost var states := Read(now).states;
      for axis := 0 to AXES
        modifies commands
        invariant forall i | 0 <= i < axis :: commands[i] == QuickStopCommand(states[i])
        invariant anyOperationEnabled <==> OperationEnabled in states[..axis]
      {
        var state := Decode(statusWords[axis]);
        assert states[..axis + 1] == states[..axis] + [state];
        var command: Word := 0x0000;
        if state == OperationEnabled || state == QuickStopActive {
          command := 0x0002;
        } else if state == SwitchedOn {
          command := 0x0006;
        }
        anyOperationEnabled := anyOperationEnabled || state == OperationEnabled;
        commands[axis] := command;
      }
      assert states[..AXES] == states;
      assert Now() == old(Now()).(commands := QuickStopCommands(Read(now)));
      hide QuickStopCommands, Decoded;
      if !anyOperationEnabled || now >= stageDeadline {
        StartDownward(EmergencyDisable, now);
      }
    }

    /** One round of the axis loop of the enabling phase. */
    method CommandAxis(axis: nat, now: nat) returns (command: Word, incomplete: bool, invalid: bool)
      requires Valid() && axis < AXES
      ensures command == EnableCommand(currentBatch, axis, Read(now).states[axis])
      ensures incomplete <==> BatchOf(axis) == currentBatch && Read(now).states[axis] != OperationEnabled
      ensures invalid <==> InvalidFor(currentBatch, axis, Read(now).states[axis])
    {
      var isCurrent, isPrevious := Position(axis);
      var state := Decode(statusWords[axis]);
      assert state == Read(now).states[axis];
      hide BatchOf, Decode;
      command, incomplete, invalid := 0x0000, false, false;
      if isPrevious {
        command := 0x000F;
        invalid := state != OperationEnabled;
      } else if isCurrent {
        match state {
          case SwitchOnDisabled =>
            command := 0x0006;
            incomplete := true;
          case ReadyToSwitchOn =>
            command := 0x0007;
            incomplete := true;
          case SwitchedOn =>
            command := 0x000F;
            incomplete := true;
          case OperationEnabled =>
            command := 0x000F;
          case _ =>
            incomplete := true;
            invalid := true;
        }
      }
    }

    method CommandBatch(now: nat) returns (batchComplete: bool, invalidAxis: int)
      requires Valid()
      modifies commands
      ensures commands[..] == EnableCommands(currentBatch, Read(now))
      ensures invalidAxis == FirstInvalid(currentBatch, Read(now))
      ensures batchComplete <==> BatchComplete(currentBatch, Read(now))
    {
      hide BatchOf, Decoded, Decode, EnableCommand, InvalidFor, Scanned, BatchComplete, FirstInvalid;
      batchComplete, invalidAxis := true, -1;
      ghost var f := Read(now);
      ScanBegins(currentBatch, f);
      for axis := 0 to AXES
        invariant forall i | 0 <= i < axis :: commands[i] == EnableCommand(currentBatch, i, f.states[i])
        invariant Scanned(currentBatch, f, axis, batchComplete, invalidAxis)
      {
        var command, incomplete, invalid := CommandAxis(axis, now);
        ScanAxis(currentBatch, f, axis, batchComplete, invalidAxis);
        batchComplete := batchComplete && !incomplete;
        if invalid && invalidAxis < 0 {
          invalidAxis := axis;
        }
        commands[axis] := command;
      }
      ScanEnds(currentBatch, f, batchComplete, invalidAxis);
    }

    method Position(axis: nat) returns (isCurrent: bool, isPrevious: bool)
      requires axis < AXES
      ensures isCurrent <==> BatchOf(axis) == currentBatch
      ensures isPrevious <==> BatchOf(axis) < currentBatch
    {
      isCurrent, isPrevious := false, false;
      var batch := 0;
      while batch <= currentBatch
        invariant 0 <= batch <= currentBatch + 1
        invariant isCurrent <==> BatchOf(axis) < batch && BatchOf(axis) == currentBatch
        invariant isPrevious <==> BatchOf(axis) < batch && BatchOf(axis) < currentBatch
      {
        BatchesPartitionAxes(axis, batch);
        var row := ENABLE_BATCHES[batch];
        for item := 0 to |row|
          invariant isCurrent <==> axis in row[..item] && batch == currentBatch
          invariant isPrevious <==> BatchOf(axis) < batch || (axis in row[..item] && batch < currentBatch)
        {
          if row[item] == axis {
            isCurrent := batch == currentBatch;
            isPrevious := batch < currentBatch;
          }
        }
        assert row[..|row|] == row;
        batch := batch + 1;
      }
    }

    method AnswerEnable(outcome: Outcome, primary: Failure, now: nat)
      requires Valid()
      modifies this
      ensures Valid() && Now() == HandOver(old(Now()), config, outcome, primary, now)
    {
      hide Publish;
      PublishEnable(outcome);
      owner := ByDisable;
      disableRequest := Lowered;
      primaryFailure := primary;
      StartDownward(Disabling, now);
    }

    method FailEnable(failure: Failure, now: nat)
      requires Valid()
      modifies this
      ensures Valid() && Now() == EnableFailed(old(Now()), config, failure, now)
    {
      hide HandOver, StartDescent;
      RecordPrimary(failure);
      if enablePreemptRequested.Raised? {
        var kept := if failure.reason == EnableBatchTimeout then failure.(reason := Success) else failure;
        AnswerEnable(Refused(failure), kept, now);
      } else {
        StartDownward(Rollback, now);
      }
    }

    /** The fault scans of the watch and of the enabling phase. */
    method ScanFaults(now: nat) returns (axis: int)
      requires Valid()
      ensures axis == FirstFault(Read(now).states)
    {
      axis := 0;
      ghost var states := Read(now).states;
      while axis < AXES
        invariant 0 <= axis <= AXES
        invariant forall i | 0 <= i < axis :: !IsFault(states[i])
      {
        if IsFault(Decode(statusWords[axis])) {
          return;
        }
        axis := axis + 1;
      }
      axis := -1;
    }

    method ScanNotOperational(now: nat) returns (axis: int)
      requires Valid()
      ensures axis == FirstNotIn(Read(now).states, OperationEnabled)
    {
      axis := 0;
      ghost var states := Read(now).states;
      while axis < AXES
        invariant 0 <= axis <= AXES
        invariant forall i | 0 <= i < axis :: states[i] == OperationEnabled
      {
        if Decode(statusWords[axis]) != OperationEnabled {
          return;
        }
        axis := axis + 1;
      }
      axis := -1;
    }

    method HoldOperational(now: nat)
      requires Valid()
      modifies commands
      ensures commands[..] == HoldCommands(Read(now))
    {
      ghost var states := Read(now).states;
      for axis := 0 to AXES
        invariant forall i | 0 <= i < axis :: commands[i] == if states[i] == OperationEnabled then 0x000F else 0x0000
      {
        commands[axis] := if Decode(statusWords[axis]) == OperationEnabled then 0x000F else 0x0000;
      }
    }

    method NextEnableBatch(now: nat)
      requires Valid()
      modifies this
      ensures Valid() && Now() == old(Now()).(batch := NextBatch(old(currentBatch)),
                                              deadline := now + config.batch, phase := Enabling)
    {
      currentBatch := NextBatch(currentBatch);
      stageDeadline := now + config.batch;
      phase := Enabling;
    }

    method UpdatePause(now: nat)
      requires Valid()
      modifies this, commands
      ensures Valid() && Now() == ClimbPause(old(Now()), config, Read(now))
    {
      HoldOperational(now);
      hide HoldCommands, Decoded, HandOver, NextBatch;
      assert Now() == old(Now()).(commands := HoldCommands(Read(now)));
      if enablePreemptRequested.Raised? {
        AnswerEnable(Refusal(PreemptedByDisable), primaryFailure.(reason := Success), now);
      } else if now >= stageDeadline {
        NextEnableBatch(now);
      }
    }

    method FinishBatch(now: nat)
      requires Valid()
      modifies this
      ensures Valid() && Now() == BatchDone(old(Now()), config, now)
    {
      hide HandOver;
      if enablePreemptRequested.Raised? {
        AnswerEnable(Refusal(PreemptedByDisable), primaryFailure.(reason := Success), now);
      } else if currentBatch + 1 == BATCHES {
        enableHardwareReady := Raised;
        phase := JtcActivating;
      } else {
        stageDeadline := now + config.delay;
        phase := InterBatchDelay;
      }
    }

    method FindLate(now: nat) returns (axis: nat)
      requires Valid()
      ensures axis < AXES && axis == FirstLate(ENABLE_BATCHES[currentBatch], Read(now))
    {
      var row := ENABLE_BATCHES[currentBatch];
      ghost var f := Read(now);
      assert forall i | 0 <= i < |row| :: row[i] < AXES;
      axis := row[0];
      var item := 0;
      while item < |row|
        invariant 0 <= item <= |row|
        invariant forall i | 0 <= i < item :: f.states[row[i]] == OperationEnabled
      {
        if Decode(statusWords[row[item]]) != OperationEnabled {
          assert IsFirstLate(row, f, item);
          return row[item];
        }
        item := item + 1;
      }
    }

    method UpdateBatch(now: nat)
      requires Valid()
      modifies this, commands
      ensures Valid() && Now() == ClimbBatch(old(Now()), config, Read(now))
    {
      var batchComplete, invalidAxis := CommandBatch(now);
      hide EnableCommands, Decoded, BatchDone, EnableFailed, FirstInvalid, FirstLate, BatchComplete;
      assert Now() == old(Now()).(commands := EnableCommands(currentBatch, Read(now)));
      if invalidAxis >= 0 {
        FailEnable(Failure(EnableInvalidState, currentBatch, invalidAxis, statusWords[invalidAxis]), now);
      } else if batchComplete {
        FinishBatch(now);
      } else if now >= stageDeadline {
        var late := FindLate(now);
        FailEnable(Failure(EnableBatchTimeout, currentBatch, late, statusWords[late]), now);
      }
    }

    method UpdateEnable(now: nat)
      requires Valid()
      modifies this, commands
      ensures Valid() && Now() == Climb(old(Now()), config, Read(now))
    {
      hide Decoded, FirstFault, EnableTick.StartEmergency, ClimbPause, ClimbBatch;
      if disableRequest.Raised? {
        enablePreemptRequested := Raised;
      }
      assert Now() == old(Now()).(preempt := RaisedIf(old(Now()).preempt.Raised? || old(Now()).disableRequest.Raised?));
      var fault := ScanFaults(now);
      if fault >= 0 {
        disableRequest := Lowered;
        StartEmergency(FaultDetected, fault, now);
      } else if phase == InterBatchDelay {
        UpdatePause(now);
      } else {
        UpdateBatch(now);
      }
    }

    method MarkTargets(now: nat) returns (hasFault: bool)
      requires Valid()
      modifies resetTargets
      ensures resetTargets[..] == FaultTargets(Read(now))
      ensures hasFault <==> AnyFault(Read(now).states)
    {
      hasFault := false;
      ghost var states := Read(now).states;
      for axis := 0 to AXES
        invariant forall i | 0 <= i < axis :: resetTargets[i] == IsFault(states[i])
        invariant hasFault <==> exists i | 0 <= i < axis :: IsFault(states[i])
      {
        resetTargets[axis] := IsFault(Decode(statusWords[axis]));
        hasFault := hasFault || resetTargets[axis];
      }
    }

    method AnswerReset(outcome: Outcome, phase: Phase, failure: Failure)
      requires Valid()
      modifies this
      ensures Valid() && Now() == old(Now()).(lastFailure := failure, reset := Publish(old(resetResult), outcome),
                                              phase := phase, owner := Nobody)
    {
      hide Publish;
      lastFailure := failure;
      PublishReset(outcome);
      Release(phase);
    }

    method BeginReset(now: nat)
      requires Valid()
      modifies this, resetTargets
      ensures Valid() && Now() == EnableTick.BeginReset(old(Now()), Read(now))
    {
      hide FaultTargets, Decoded, AnyFault, Publish;
      var hasFault := MarkTargets(now);
      assert Now() == old(Now()).(targets := FaultTargets(Read(now)));
      resetRequest := Lowered;
      if hasFault {
        phase := ResetLow;
      } else {
        AnswerReset(Achieved(AlreadyClear), Idle, NO_FAILURE);
      }
    }

    /** The axis loop of UpdateReset. */
    method CommandReset(now: nat) returns (allReset: bool, firstPending: int)
      requires Valid()
      modifies commands
      ensures commands[..] == ResetCommands(resetTargets[..], Read(now))
      ensures firstPending == FirstPending(resetTargets[..], Read(now))
      ensures allReset <==> firstPending < 0
    {
      allReset, firstPending := true, -1;
      ghost var targets: Marks := resetTargets[..];
      ghost var states := Read(now).states;
      for axis := 0 to AXES
        invariant forall i | 0 <= i < axis :: commands[i] == if Pulsed(targets[i], states[i]) then 0x0080 else 0x0000
        invariant allReset <==> firstPending < 0
        invariant -1 <= firstPending < axis
        invariant firstPending >= 0 ==> ResetPending(targets[firstPending], firstPending, states[firstPending])
        invariant forall i | 0 <= i < axis && (firstPending < 0 || i < firstPending) ::
                    !ResetPending(targets[i], i, states[i])
      {
        var state := Decode(statusWords[axis]);
        if resetTargets[axis] && state == Fault {
          commands[axis] := 0x0080;
          allReset := false;
          if firstPending < 0 {
            firstPending := axis;
          }
        } else {
          commands[axis] := 0x0000;
          if !ConfirmedTerminal(axis, state) {
            allReset := false;
            if firstPending < 0 {
              firstPending := axis;
            }
          }
        }
      }
    }

    method UpdatePulse(now: nat)
      requires Valid()
      modifies this, commands
      ensures Valid() && Now() == ResetPulse(old(Now()), Read(now))
    {
      var allReset, firstPending := CommandReset(now);
      hide ResetCommands, Decoded, FirstPending, Publish, All;
      assert Now() == old(Now()).(commands := ResetCommands(resetTargets[..], Read(now)));
      if allReset {
        AnswerReset(Achieved(Success), Idle, NO_FAILURE);
      } else if now >= stageDeadline {
        var failure := Failure(FaultResetTimeout, -1, firstPending, statusWords[firstPending]);
        AnswerReset(Refused(failure), Failed, failure);
        SetAllControlWords(0x0000);
      }
    }

    method PreemptReset(now: nat)
      requires Valid()
      modifies this
      ensures Valid() && Now().(commands := All(0x0000)) == ResetPreempted(old(Now()), config, now)
    {
      hide All, Publish;
      disableRequest := Lowered;
      PublishReset(Refusal(PreemptedByDisable));
      owner := ByDisable;
      primaryFailure := primaryFailure.(reason := Success);
      StartDownward(Disabling, now);
    }

    method UpdateReset(now: nat)
      requires Valid()
      modifies this, commands
      ensures Valid() && Now() == ResetCycle(old(Now()), config, Read(now))
    {
      hide All, Decoded, ResetPulse, ResetPreempted;
      if disableRequest.Raised? {
        PreemptReset(now);
        SetAllControlWords(0x0000);
      } else if phase == ResetLow {
        SetAllControlWords(0x0000);
        stageDeadline := now + config.reset;
        phase := ResetHigh;
      } else {
        UpdatePulse(now);
      }
    }

    method PickUpEnable(now: nat)
      requires Valid()
      modifies this
      ensures Valid()
      ensures Now() == old(Now()).(enableRequest := Lowered, batch := 0, preempt := Lowered, primary := NO_FAILURE,
                                   hardwareReady := Lowered, deadline := now + config.batch, phase := Enabling)
    {
      ClearEnable();
      currentBatch := 0;
      stageDeadline := now + config.batch;
      phase := Enabling;
    }

    method ClearEnable()
      requires Valid()
      modifies this
      ensures Valid()
      ensures Now() == old(Now()).(enableRequest := Lowered, preempt := Lowered, primary := NO_FAILURE,
                                   hardwareReady := Lowered)
    {
      enableRequest := Lowered;
      enablePreemptRequested := Lowered;
      primaryFailure := NO_FAILURE;
      enableHardwareReady := Lowered;
    }

    method ServeIdle(now: nat)
      requires Valid() && phase == Idle
      modifies this, commands, resetTargets
      ensures Valid() && Now() == IdleCycle(old(Now()), config, Read(now))
    {
      hide Decoded, All, EnableTick.BeginReset, Publish;
      SetAllControlWords(0x0000);
      assert Now() == old(Now()).(commands := All(0x0000));
      if enableRequest.Raised? {
        PickUpEnable(now);
      } else if resetRequest.Raised? {
        BeginReset(now);
      } else if disableRequest.Raised? {
        disableRequest := Lowered;
        lastFailure := NO_FAILURE;
        PublishDisable(Achieved(AlreadyDisabled));
        Release(Idle);
      }
    }

    method TakeDisable(now: nat)
      requires Valid()
      modifies this
      ensures Valid()
      ensures Now() == if old(disableRequest).Raised?
                       then StartDescent(old(Now()).(disableRequest := Lowered), config, Disabling, now)
                       else old(Now())
    {
      if disableRequest.Raised? {
        disableRequest := Lowered;
        StartDownward(Disabling, now);
      }
    }

    method ServeFailed(now: nat)
      requires Valid()
      modifies this, commands, resetTargets
      ensures Valid() && Now() == FailedCycle(old(Now()), config, Read(now))
    {
      hide Decoded, All, EnableTick.BeginReset, StartDescent;
      SetAllControlWords(0x0000);
      assert Now() == old(Now()).(commands := All(0x0000));
      if disableRequest.Raised? {
        TakeDisable(now);
      } else if resetRequest.Raised? {
        BeginReset(now);
      }
    }

    method ServeActivating(now: nat)
      requires Valid()
      modifies this, commands
      ensures Valid() && Now() == ActivatingCycle(old(Now()), config, Read(now))
    {
      hide Decoded, All, StartDescent;
      if jtcActivateFailedRequest.Raised? {
        jtcActivateFailedRequest := Lowered;
        RecordPrimary(Failure(JtcActivateFailed, -1, -1, 0));
        StartDownward(Rollback, now);
      } else {
        SetAllControlWords(0x000F);
      }
    }

    method ServeHold(now: nat)
      requires Valid()
      modifies this, commands
      ensures Valid() && Now() == HoldCycle(old(Now()), config, Read(now))
    {
      hide Decoded, All, StartDescent;
      SetAllControlWords(0x000F);
      assert Now() == old(Now()).(commands := All(0x000F));
      TakeDisable(now);
    }

    method ServeDescent(now: nat)
      requires Valid()
      modifies this, commands
      ensures Valid() && Now() == DescentCycle(old(Now()), config, Read(now))
    {
      hide Decoded, StartDescent, Descend;
      if stageDeadline == 0 {
        StartDownward(phase, now);
      }
      UpdateDownward(now);
    }

    /** The fault watch of an enabled robot. */
    method WatchDrives(now: nat)
      requires Valid()
      modifies this
      ensures Valid() && Now() == Watch(old(Now()), config, Read(now))
    {
      hide FirstFault, FirstNotIn, EnableTick.StartEmergency, Decoded, Decode;
      if phase == Enabled {
        var axis := ScanNotOperational(now);
        if axis >= 0 {
          var state := Decode(statusWords[axis]);
          assert state == Read(now).states[axis] by { SeenAsDecoded(now, axis); }
          StartEmergency(if IsFault(state) then FaultDetected else UnexpectedDriveState, axis, now);
        }
      } else if phase == JtcActivating || phase == JtcDeactivating {
        var axis := ScanFaults(now);
        if axis >= 0 {
          StartEmergency(FaultDetected, axis, now);
        }
      }
    }

    lemma SeenAsDecoded(now: nat, axis: nat)
      requires Valid() && axis < AXES
      ensures Read(now).states[axis] == Decode(statusWords[axis])
    {
    }

    method ServePhase(now: nat)
      requires Valid()
      modifies this, commands, resetTargets
      ensures Valid() && Now() == Serve(old(Now()), config, Read(now))
    {
      hide Decoded, DescentCycle, QuickStop, IdleCycle, FailedCycle, Climb, ActivatingCycle, HoldCycle, ResetCycle;
      match phase
      case StartupSanitizing | Disabling | Rollback | EmergencyDisable => ServeDescent(now);
      case EmergencyQuickStop => UpdateEmergencyQuickStop(now);
      case Idle => ServeIdle(now);
      case Failed => ServeFailed(now);
      case Enabling | InterBatchDelay => UpdateEnable(now);
      case JtcActivating => ServeActivating(now);
      case Enabled | JtcDeactivating => ServeHold(now);
      case ResetLow | ResetHigh => UpdateReset(now);
    }

    /** One real-time cycle. */
    method Update(now: nat, readings: seq<Option<Word>>)
      requires Valid() && |readings| == AXES
      modifies this, commands, statusWords, resetTargets
      ensures Valid()
      ensures var words: Words := seq(AXES, i requires 0 <= i < AXES => WordOf(readings[i]));
              Now() == Tick(old(Now()), config, FrameOf(now, words))
    {
      hide Decoded, Watch, Serve, WordOf;
      RefreshStatusWords(readings);
      assert statusWords[..] == seq(AXES, i requires 0 <= i < AXES => WordOf(readings[i]));
      assert Now() == old(Now());
      WatchDrives(now);
      ServePhase(now);
    }

    // ---------- The atomic steps of the service handlers ----------

    method HandleEnableAdmission() returns (admitted: bool)
      requires Valid()
      modifies this
      ensures Valid() && (admitted <==> EnableAdmissible(old(Now())))
      ensures admitted <==> old(restartRequired).Lowered? && old(phase) == Idle && old(owner) == Nobody
      ensures Now() == if admitted then AdmitEnable(old(Now())) else old(Now())
    {
      admitted := !restartRequired.Raised? && phase == Idle && owner == Nobody;
      if admitted {
        ClaimEnable();
      }
    }

    method ClaimEnable()
      requires Valid()
      modifies this
      ensures Valid() && Now() == AdmitEnable(old(Now()))
    {
      owner := ByEnable;
      enableResult := enableResult.(ready := Lowered);
      enableHardwareReady := Lowered;
      enableRequest := Raised;
    }

    method HandleActivation(result: Switch)
      requires Valid()
      modifies this
      ensures Valid() && Now() == CompleteActivation(old(Now()), result)
    {
      hide Publish;
      if result == Switched {
        if phase == JtcActivating {
          lastFailure := NO_FAILURE;
          PublishEnable(Achieved(Success));
          Release(Enabled);
        }
      } else {
        if result == Ambiguous {
          restartRequired := Raised;
          emergencyJtcDeactivateRequest := Raised;
        }
        if phase == JtcActivating {
          jtcActivateFailedRequest := Raised;
        }
      }
    }

    method TestDisable() returns (admissible: bool, preempting: bool)
      requires Valid()
      ensures admissible <==> DisableAdmissible(Now())
      ensures preempting <==> Preempts(Now())
    {
      var preemptEnable := owner == ByEnable && (phase == Enabling || phase == InterBatchDelay);
      var preemptReset := owner == ByReset && (phase == ResetLow || phase == ResetHigh);
      preempting := preemptEnable || preemptReset;
      if phase == Idle || phase == StartupSanitizing || phase == EmergencyQuickStop || phase == EmergencyDisable ||
         phase == JtcActivating || phase == Disabling || phase == Rollback {
        return false, preempting;
      }
      admissible := preempting || owner == Nobody;
    }

    method HandleDisableAdmission() returns (admitted: bool)
      requires Valid()
      modifies this
      ensures Valid() && (admitted <==> DisableAdmissible(old(Now())))
      ensures admitted <==>
                || (old(owner) == ByEnable && (old(phase) == Enabling || old(phase) == InterBatchDelay))
                || (old(owner) == ByReset && (old(phase) == ResetLow || old(phase) == ResetHigh))
                || (old(owner) == Nobody &&
                    match old(phase)
                    case Enabled | JtcDeactivating | Failed | Enabling | InterBatchDelay | ResetLow | ResetHigh => true
                    case _ => false)
      ensures Now() == if admitted then AdmitDisable(old(Now())) else old(Now())
    {
      var preempting;
      admitted, preempting := TestDisable();
      hide DisableAdmissible, Preempts;
      if admitted {
        ClaimDisable(preempting);
        RequestDisable();
      }
    }

    method RequestDisable()
      requires Valid()
      modifies this
      ensures Valid()
      ensures Now() == if old(phase) == Enabled then old(Now()).(phase := JtcDeactivating)
                       else old(Now()).(disableRequest := Raised)
    {
      if phase == Enabled {
        phase := JtcDeactivating;
      } else {
        disableRequest := Raised;
      }
    }

    method ClaimDisable(preempting: bool)
      requires Valid()
      modifies this
      ensures Valid()
      ensures Now() == old(Now()).(owner := if preempting then old(owner) else ByDisable,
                                   disable := old(disableResult).(ready := Lowered), deactivateFailed := Lowered)
    {
      if !preempting {
        owner := ByDisable;
      }
      disableResult := disableResult.(ready := Lowered);
      jtcDeactivateFailed := Lowered;
    }

    method HandleDeactivation(result: Switch)
      requires Valid()
      modifies this
      ensures Valid() && Now() == CompleteDeactivation(old(Now()), result)
    {
      if result != Switched {
        jtcDeactivateFailed := Raised;
        restartRequired := Raised;
        lastFailure := Failure(JtcDeactivateFailed, -1, -1, 0);
      }
      disableRequest := Raised;
    }

    method HandleResetAdmission() returns (admitted: bool)
      requires Valid()
      modifies this
      ensures Valid() && (admitted <==> ResetAdmissible(old(Now())))
      ensures admitted <==>
                old(restartRequired).Lowered? && (old(phase) == Idle || old(phase) == Failed) && old(owner) == Nobody
      ensures Now() == if admitted then AdmitReset(old(Now())) else old(Now())
    {
      admitted := !restartRequired.Raised? && (phase == Idle || phase == Failed) && owner == Nobody;
      if admitted {
        owner := ByReset;
        resetResult := resetResult.(ready := Lowered);
        resetRequest := Raised;
      }
    }

    /** Configured and activated, with nothing published yet. */
    constructor (config: Config)
      ensures Valid() && this.config == config
      ensures fresh(commands) && fresh(statusWords) && fresh(resetTargets)
      ensures forall now, since :: Init(Sys(Now(), now, now, EnableOut, DisableOut, ResetOut, WorkerOut, since, 0))
    {
      this.config := config;
      commands := new Word[AXES](i => 0);
      statusWords := new Word[AXES](i => 0);
      resetTargets := new bool[AXES](i => false);
      phase, owner, interruptedOwner := StartupSanitizing, Internal, Nobody;
      enableRequest, disableRequest, resetRequest := Lowered, Lowered, Lowered;
      enableHardwareReady, jtcActivateFailedRequest, emergencyJtcDeactivateRequest := Lowered, Lowered, Lowered;
      restartRequired, jtcDeactivateFailed, enablePreemptRequested := Lowered, Lowered, Lowered;
      var empty := Slot(Lowered, Refused(NO_FAILURE), []);
      enableResult, disableResult, resetResult := empty, empty, empty;
      lastFailure, primaryFailure := NO_FAILURE, NO_FAILURE;
      currentBatch, downwardStage, stageDeadline := 0, 0, 0;
    }
  }

  /** What the loop over the axes of a batch has found after `n` of them. */
  ghost predicate Scanned(batch: Batch, f: Frame, n: nat, batchComplete: bool, invalidAxis: int)
    requires n <= AXES
  {
    && -1 <= invalidAxis < n
    && (invalidAxis >= 0 ==> InvalidFor(batch, invalidAxis, f.states[invalidAxis]))
    && (forall i | 0 <= i < n && (invalidAxis < 0 || i < invalidAxis) :: !InvalidFor(batch, i, f.states[i]))
    && (batchComplete <==> forall i | 0 <= i < n :: BatchOf(i) == batch ==> f.states[i] == OperationEnabled)
  }

  lemma ScanBegins(batch: Batch, f: Frame)
    ensures Scanned(batch, f, 0, true, -1)
  {
  }

  lemma ScanAxis(batch: Batch, f: Frame, n: nat, batchComplete: bool, invalidAxis: int)
    requires n < AXES && Scanned(batch, f, n, batchComplete, invalidAxis)
    ensures Scanned(batch, f, n + 1, batchComplete && !(BatchOf(n) == batch && f.states[n] != OperationEnabled),
                    if invalidAxis < 0 && InvalidFor(batch, n, f.states[n]) then n else invalidAxis)
  {
    hide BatchOf, InvalidFor;
  }

  lemma ScanEnds(batch: Batch, f: Frame, batchComplete: bool, invalidAxis: int)
    requires Scanned(batch, f, AXES, batchComplete, invalidAxis)
    ensures invalidAxis == FirstInvalid(batch, f) && (batchComplete <==> BatchComplete(batch, f))
  {
    hide BatchOf, InvalidFor;
  }
}
