/** Enabling goes up batch by batch: what each step up has read, how long the
    climb can take, and why the handler is still there at its end. */
module Climbing {
  import opened Values
  import opened Cia402
  import opened EnableTick
  import opened Protocol
  import opened Answers

  /** Every axis of the batches up to and including `batch` is operation enabled. */
  predicate UpTo(batch: Batch, states: States) {
    forall i | 0 <= i < AXES :: BatchOf(i) <= batch ==> states[i] == OperationEnabled
  }

  predicate NoFault(states: States) {
    FirstFault(states) < 0
  }

  /** The only ways into each phase of the climb, with what was read on the way. */
  ghost predicate ClimbLadder(s: State, c: Config, f: Frame, t: State) {
    match t.phase
    case Enabling =>
      || (s.phase == Idle && s.enableRequest.Raised? && t.batch == 0 && t.deadline == f.now + c.batch &&
          t.hardwareReady.Lowered?)
      || (s.phase == Enabling && t.batch == s.batch && t.deadline == s.deadline && f.now < s.deadline &&
          NoFault(f.states) && t.hardwareReady == s.hardwareReady)
      || (s.phase == InterBatchDelay && t.batch == NextBatch(s.batch) && t.deadline == f.now + c.batch &&
          f.now >= s.deadline && NoFault(f.states) && t.hardwareReady == s.hardwareReady)
    case InterBatchDelay =>
      || (s.phase == Enabling && t.batch == s.batch && s.batch + 1 < BATCHES && t.deadline == f.now + c.delay &&
          UpTo(s.batch, f.states) && NoFault(f.states) && t.hardwareReady == s.hardwareReady)
      || (s.phase == InterBatchDelay && t.batch == s.batch && t.deadline == s.deadline && f.now < s.deadline &&
          NoFault(f.states) && t.hardwareReady == s.hardwareReady)
    case JtcActivating =>
      || (s.phase == Enabling && s.batch + 1 == BATCHES && UpTo(s.batch, f.states) && t.hardwareReady.Raised?)
      || (s.phase == JtcActivating && NoFault(f.states) && t.hardwareReady == s.hardwareReady &&
          s.activateFailed.Lowered? && t.activateFailed.Lowered?)
    case Enabled =>
      s.phase == Enabled && UpTo(BATCHES - 1, f.states)
    case _ => true
  }

  lemma CompleteBatchesAreUp(batch: Batch, f: Frame)
    requires FirstInvalid(batch, f) < 0 && BatchComplete(batch, f)
    ensures UpTo(batch, f.states)
  {
    forall i | 0 <= i < AXES && BatchOf(i) <= batch ensures f.states[i] == OperationEnabled {
      assert !InvalidFor(batch, i, f.states[i]);
    }
  }

  lemma FailedEnableDescends(s: State, c: Config, failure: Failure, now: nat)
    ensures var t := EnableFailed(s, c, failure, now); t.phase == Disabling || t.phase == Rollback
  {
  }

  lemma BatchDoneLadder(s: State, c: Config, f: Frame)
    requires s.phase == Enabling && NoFault(f.states) && UpTo(s.batch, f.states)
    ensures ClimbLadder(s, c, f, BatchDone(s, c, f.now))
  {
    hide UpTo, NoFault;
  }

  lemma ClimbBatchLadder(s: State, c: Config, f: Frame)
    requires s.phase == Enabling && NoFault(f.states)
    ensures ClimbLadder(s, c, f, ClimbBatch(s, c, f))
  {
    hide EnableCommands, FirstLate, FirstInvalid, BatchComplete, UpTo, NoFault, EnableFailed, BatchDone, InvalidFor;
    var s1 := s.(commands := EnableCommands(s.batch, f));
    if FirstInvalid(s.batch, f) < 0 && BatchComplete(s.batch, f) {
      CompleteBatchesAreUp(s.batch, f);
      BatchDoneLadder(s1, c, f);
      assert ClimbBatch(s, c, f) == BatchDone(s1, c, f.now);
      hide ClimbBatch, ClimbLadder;
      ClimbLadderOf(s, s1, c, f, BatchDone(s1, c, f.now));
    } else {
      forall failure { FailedEnableDescends(s1, c, failure, f.now); }
    }
  }

  /** The ladder does not look at the command words. */
  lemma ClimbLadderOf(s: State, s1: State, c: Config, f: Frame, t: State)
    requires s1 == s.(commands := s1.commands) && ClimbLadder(s1, c, f, t)
    ensures ClimbLadder(s, c, f, t)
  {
    hide UpTo, NoFault;
  }

  lemma ClimbStepLadder(s: State, c: Config, f: Frame)
    requires Ascending(s.phase)
    ensures ClimbLadder(s, c, f, Climb(s, c, f))
  {
    hide ClimbBatch, FirstFault, HoldCommands;
    var s1 := s.(preempt := RaisedIf(s.preempt.Raised? || s.disableRequest.Raised?));
    if s.phase == Enabling && NoFault(f.states) { ClimbBatchLadder(s1, c, f); }
  }

  /** A descent never leads back into the climb. */
  lemma DescentLeavesLadder(s: State, c: Config, f: Frame)
    requires Walking(s.phase)
    ensures var t := Descend(s, c, f);
            !Ascending(t.phase) && t.phase != JtcActivating && t.phase != Enabled
  {
    hide StageDone, FirstUnsettled, FirstFault;
  }

  lemma ResetLeavesLadder(s: State, f: Frame)
    requires Resetting(s.phase)
    ensures var t := ResetPulse(s, f); t.phase == s.phase || t.phase == Idle || t.phase == Failed
  {
    hide FirstPending;
  }

  lemma TickLadder(s: State, c: Config, f: Frame)
    ensures ClimbLadder(s, c, f, Tick(s, c, f))
  {
    TickByPhase(s, c, f);
    hide Tick, Climb, Descend, ResetPulse, FirstFault, FirstNotIn;
    if Walking(s.phase) {
      DescentLeavesLadder(s, c, f);
      DescentLeavesLadder(StartDescent(s, c, s.phase, f.now), c, f);
    } else if Ascending(s.phase) {
      hide ClimbLadder;
      ClimbStepLadder(s, c, f);
    } else if Resetting(s.phase) {
      ResetLeavesLadder(s, f);
    } else if Watched(s.phase) {
      hide ClimbLadder;
      WatchedLadder(s, c, f);
    }
  }

  lemma WatchedLadder(s: State, c: Config, f: Frame)
    requires Watched(s.phase)
    ensures ClimbLadder(s, c, f, Tick(s, c, f))
  {
    TickByPhase(s, c, f);
    hide Tick, Climb, Descend, ResetPulse, FirstFault, FirstNotIn;
  }

  // ---------- What a batch comes to ----------

  /** An earlier axis has dropped out, or an axis of the batch is in no state on the
      way up. */
  predicate WrongIn(batch: Batch, axis: nat, state: DriveState)
    requires axis < AXES
  {
    if BatchOf(axis) < batch then state != OperationEnabled
    else
      BatchOf(axis) == batch &&
      state != SwitchOnDisabled && state != ReadyToSwitchOn && state != SwitchedOn && state != OperationEnabled
  }

  /** The enable is answered with this, and the robot goes down for the disable,
      with or without a failure on record. */
  predicate HandedOver(s: State, t: State, answer: Failure, recorded: bool) {
    && t.phase == Disabling && t.owner == ByDisable && t.disableRequest.Lowered?
    && t.enable == Publish(s.enable, Refused(answer))
    && (if recorded then t.primary == answer else t.primary.reason == Success)
  }

  /** The enable failed: it is rolled back with this failure on record, or hands
      over to the disable that waits. */
  predicate FailsWith(s: State, t: State, failure: Failure, waiting: bool) {
    && t.lastFailure == failure
    && if waiting then HandedOver(s, t, failure, failure.reason == EnableInvalidState)
       else t.phase == Rollback && t.primary == failure && t.enable == s.enable && t.owner == s.owner
  }

  /** What a cycle without a fault makes of the current batch: wrong states end it
      at the first of them, all axes enabled complete it, its deadline ends it at
      the first late axis, and otherwise it goes on.  A waiting disable is taken
      up instead of going further up. */
  ghost predicate BatchComesTo(s: State, c: Config, f: Frame, t: State, waiting: bool) {
    if exists i | 0 <= i < AXES :: WrongIn(s.batch, i, f.states[i]) then
      exists i | 0 <= i < AXES ::
        && WrongIn(s.batch, i, f.states[i]) && (forall j | 0 <= j < i :: !WrongIn(s.batch, j, f.states[j]))
        && FailsWith(s, t, Failure(EnableInvalidState, s.batch, i, f.words[i]), waiting)
    else if UpTo(s.batch, f.states) then
      if waiting then HandedOver(s, t, Failure(PreemptedByDisable, -1, -1, 0), false)
      else if s.batch + 1 == BATCHES then t.phase == JtcActivating && t.hardwareReady.Raised?
      else t.phase == InterBatchDelay && t.batch == s.batch && t.deadline == f.now + c.delay
    else if f.now >= s.deadline then
      var late := FirstLate(ENABLE_BATCHES[s.batch], f);
      f.states[late] != OperationEnabled &&
      FailsWith(s, t, Failure(EnableBatchTimeout, s.batch, late, f.words[late]), waiting)
    else
      t.phase == Enabling && t.batch == s.batch && t.deadline == s.deadline && t.enable == s.enable
  }

  lemma WrongIsInvalid(batch: Batch, axis: nat, state: DriveState)
    requires axis < AXES
    ensures WrongIn(batch, axis, state) <==> InvalidFor(batch, axis, state)
  {
  }

  lemma CompleteIsUpTo(batch: Batch, f: Frame)
    requires FirstInvalid(batch, f) < 0
    ensures UpTo(batch, f.states) <==> BatchComplete(batch, f)
    ensures !BatchComplete(batch, f) ==> f.states[FirstLate(ENABLE_BATCHES[batch], f)] != OperationEnabled
  {
    if BatchComplete(batch, f) { CompleteBatchesAreUp(batch, f); }
    if !BatchComplete(batch, f) {
      var i :| 0 <= i < AXES && BatchOf(i) == batch && f.states[i] != OperationEnabled;
      BatchesPartitionAxes(i, batch);
      LateMemberIsLate(ENABLE_BATCHES[batch], f, i);
    }
  }

  lemma {:induction false} LateMemberIsLate(row: seq<nat>, f: Frame, axis: nat)
    requires (forall j | 0 <= j < |row| :: row[j] < AXES) && axis in row && f.states[axis] != OperationEnabled
    ensures f.states[FirstLate(row, f)] != OperationEnabled
  {
    if f.states[row[0]] == OperationEnabled {
      LateMemberIsLate(row[1..], f, axis);
    }
  }

  lemma EnableFailsWith(s: State, s1: State, c: Config, failure: Failure, now: nat)
    requires s1 == s.(commands := s1.commands, preempt := s1.preempt)
    requires failure.reason == EnableInvalidState || failure.reason == EnableBatchTimeout
    ensures FailsWith(s, EnableFailed(s1, c, failure, now), failure, s1.preempt.Raised?)
  {
  }

  lemma WrongAxes(batch: Batch, f: Frame)
    ensures var axis := FirstInvalid(batch, f);
            if axis < 0 then forall i | 0 <= i < AXES :: !WrongIn(batch, i, f.states[i])
            else WrongIn(batch, axis, f.states[axis]) && forall j | 0 <= j < axis :: !WrongIn(batch, j, f.states[j])
  {
    forall i | 0 <= i < AXES ensures WrongIn(batch, i, f.states[i]) <==> InvalidFor(batch, i, f.states[i]) {
      WrongIsInvalid(batch, i, f.states[i]);
    }
    hide WrongIn, InvalidFor;
  }

  lemma BatchDecides(s: State, c: Config, f: Frame)
    requires s.phase == Enabling && NoFault(f.states)
    ensures BatchComesTo(s, c, f, Tick(s, c, f), s.preempt.Raised? || s.disableRequest.Raised?)
  {
    TickByPhase(s, c, f);
    hide Tick, ClimbBatch, FirstFault;
    ClimbBatchDecides(s, c, f);
  }

  lemma ClimbBatchDecides(s: State, c: Config, f: Frame)
    requires s.phase == Enabling
    ensures var waiting := s.preempt.Raised? || s.disableRequest.Raised?;
            BatchComesTo(s, c, f, ClimbBatch(s.(preempt := RaisedIf(waiting)), c, f), waiting)
  {
    hide EnableCommands, FirstInvalid, FirstLate, BatchComplete, UpTo, InvalidFor, WrongIn, EnableFailed, FailsWith;
    var waiting := s.preempt.Raised? || s.disableRequest.Raised?;
    var s2 := s.(preempt := RaisedIf(waiting), commands := EnableCommands(s.batch, f));
    var axis := FirstInvalid(s.batch, f);
    WrongAxes(s.batch, f);
    if axis >= 0 {
      EnableFailsWith(s, s2, c, Failure(EnableInvalidState, s.batch, axis, f.words[axis]), f.now);
    } else {
      CompleteIsUpTo(s.batch, f);
      var late := FirstLate(ENABLE_BATCHES[s.batch], f);
      EnableFailsWith(s, s2, c, Failure(EnableBatchTimeout, s.batch, late, f.words[late]), f.now);
      if BatchComplete(s.batch, f) {
        BatchGoesOn(s, s2, c, f);
        hide BatchDone;
      }
    }
  }

  lemma BatchGoesOn(s: State, s2: State, c: Config, f: Frame)
    requires s2 == s.(preempt := s2.preempt, commands := s2.commands)
    ensures var t := BatchDone(s2, c, f.now);
            if s2.preempt.Raised? then HandedOver(s, t, Failure(PreemptedByDisable, -1, -1, 0), false)
            else if s.batch + 1 == BATCHES then t.phase == JtcActivating && t.hardwareReady.Raised?
            else t.phase == InterBatchDelay && t.batch == s.batch && t.deadline == f.now + c.delay
  {
  }

  /** What a cycle without a fault makes of the pause after a batch. */
  lemma PauseDecides(s: State, c: Config, f: Frame)
    requires s.phase == InterBatchDelay && NoFault(f.states) && s.batch + 1 < BATCHES
    ensures var t := Tick(s, c, f);
            if s.preempt.Raised? || s.disableRequest.Raised? then
              HandedOver(s, t, Failure(PreemptedByDisable, -1, -1, 0), false)
            else if f.now >= s.deadline then
              t.phase == Enabling && t.batch == s.batch + 1 && t.deadline == f.now + c.batch
            else t.phase == InterBatchDelay && t.batch == s.batch && t.deadline == s.deadline
  {
    TickByPhase(s, c, f);
    hide Tick, HoldCommands, FirstFault;
  }

  // ---------- What an enable success is worth ----------

  /** Step `i` of the path was a cycle that read the batches up to `batch` enabled,
      and since then, up to state `n`, the enable kept going. */
  ghost predicate SeenUp(states: seq<Sys>, acts: seq<Action>, i: nat, n: nat, batch: Batch)
    requires |states| == |acts| + 1
  {
    && i < n < |states|
    && acts[i].Cycle? && UpTo(batch, acts[i].f.states)
    && forall k | i < k <= n ::
         states[k].rt.phase in {Enabling, InterBatchDelay, JtcActivating} &&
         (k < n && acts[k].Cycle? ==> NoFault(acts[k].f.states))
  }

  lemma StepOffLadder(sys: Sys, c: Config, a: Action)
    requires !a.Cycle?
    ensures var t := Next(sys, c, a).rt;
            t.phase in {Enabling, InterBatchDelay, JtcActivating} ==> t.phase == sys.rt.phase && t.batch == sys.rt.batch
  {
  }

  /** The pause between batches never follows the last batch. */
  lemma {:induction false} PauseIsInside(c: Config, states: seq<Sys>, acts: seq<Action>, n: nat)
    requires IsRun(c, states, acts) && n <= |acts|
    ensures states[n].rt.phase == InterBatchDelay ==> states[n].rt.batch + 1 < BATCHES
  {
    hide Tick, UpTo;
    if n > 0 {
      PauseIsInside(c, states, acts, n - 1);
      var before, a := states[n - 1], acts[n - 1];
      if a.Cycle? { TickLadder(before.rt, c, a.f); } else { StepOffLadder(before, c, a); }
    }
  }

  /** The highest batch that must have been read enabled to be in this phase. */
  function BatchBehind(s: State): Batch {
    if s.phase == InterBatchDelay then s.batch
    else if s.phase == Enabling && s.batch > 0 then s.batch - 1
    else BATCHES - 1
  }

  /** A later batch is entered, and the trajectory controller is activated, only
      after a cycle that read every axis of all earlier batches enabled. */
  lemma {:induction false} BatchesSeenUp(c: Config, states: seq<Sys>, acts: seq<Action>, n: nat) returns (i: nat)
    requires IsRun(c, states, acts) && n <= |acts|
    requires states[n].rt.phase in {InterBatchDelay, JtcActivating} ||
             (states[n].rt.phase == Enabling && states[n].rt.batch > 0)
    ensures SeenUp(states, acts, i, n, BatchBehind(states[n].rt))
  {
    hide Tick, UpTo, NoFault;
    var before, a := states[n - 1], acts[n - 1];
    if a.Cycle? {
      TickLadder(before.rt, c, a.f);
      PauseIsInside(c, states, acts, n - 1);
      if before.rt.phase == Enabling && states[n].rt.phase != Enabling { return n - 1; }
    } else {
      StepOffLadder(before, c, a);
    }
    i := BatchesSeenUp(c, states, acts, n - 1);
  }

  /** A published success answers an enable whose robot was read fully enabled,
      without a fault since, and whose controller switch succeeded. */
  lemma SuccessIsEarned(c: Config, states: seq<Sys>, acts: seq<Action>, n: nat) returns (i: nat)
    requires IsRun(c, states, acts) && n < |acts|
    requires states[n + 1].rt.enable.history != states[n].rt.enable.history
    requires states[n + 1].rt.enable.outcome.Achieved?
    ensures acts[n] == EnableSwitched(Switched) && states[n].rt.phase == JtcActivating
    ensures var t := states[n + 1].rt; t.phase == Enabled && t.owner == Nobody && t.lastFailure == NO_FAILURE
    ensures states[n + 1].rt.enable == Publish(states[n].rt.enable, Achieved(Success))
    ensures SeenUp(states, acts, i, n, BATCHES - 1)
  {
    hide Tick, UpTo, NoFault;
    RunInv(c, states, acts, n);
    if acts[n].Cycle? { TickAnswers(states[n].rt, c, acts[n].f); }
    i := BatchesSeenUp(c, states, acts, n);
  }

  // ---------- How long the climb takes ----------

  /** One batch and the pause after it, each with a late cycle. */
  function Round(c: Config): nat {
    c.batch + c.tickGap + c.delay + c.tickGap
  }

  function ClimbTime(c: Config): nat {
    c.batch + c.tickGap + (BATCHES - 1) * Round(c)
  }

  lemma ClimbTimeIs(c: Config)
    ensures ClimbTime(c) == 5 * c.batch + 4 * c.delay + 9 * c.tickGap
  {
  }

  /** The latest time at which the climb is over, as seen from this state. */
  function ClimbEnd(s: State, c: Config): nat {
    if s.phase == InterBatchDelay then
      s.deadline + c.tickGap + c.batch + c.tickGap + (BATCHES - 1 - NextBatch(s.batch)) * Round(c)
    else
      s.deadline + c.tickGap + (BATCHES - 1 - s.batch) * Round(c)
  }

  /** Each cycle of the climb keeps the bound, and ends the climb before it. */
  lemma CycleKeepsClimbEnd(s: State, c: Config, f: Frame, last: nat)
    requires Ascending(s.phase) && last <= s.deadline && f.now <= last + c.tickGap
    requires s.phase == InterBatchDelay ==> s.batch + 1 < BATCHES
    ensures var t := Tick(s, c, f);
            f.now <= ClimbEnd(s, c) &&
            (Ascending(t.phase) ==> ClimbEnd(t, c) <= ClimbEnd(s, c) && f.now <= t.deadline)
  {
    hide Tick, NoFault, UpTo;
    TickLadder(s, c, f);
    var t := Tick(s, c, f);
    if s.phase == InterBatchDelay && t.phase == Enabling {
      assert t.batch == s.batch + 1;
    }
    assert (BATCHES - 1 - s.batch) * Round(c) == (BATCHES - 2 - s.batch) * Round(c) + Round(c);
  }

  /** A handler that can outwait any climb is there when the climb ends. */
  predicate Patient(c: Config) {
    ClimbTime(c) + c.tickGap < c.serviceTimeout
  }

  ghost predicate HandlerPresent(sys: Sys, c: Config) {
    var s := sys.rt;
    && sys.lastCycle <= sys.clock <= sys.lastCycle + c.tickGap
    && (s.enableRequest.Raised? ==>
          sys.enablePc == EnableWaiting && s.hardwareReady.Lowered? && sys.lastCycle <= sys.enableSince <= sys.clock)
    && (Ascending(s.phase) ==>
          sys.enablePc == EnableWaiting && s.hardwareReady.Lowered? && sys.lastCycle <= s.deadline &&
          ClimbEnd(s, c) <= sys.enableSince + c.tickGap + ClimbTime(c))
    && (s.phase == JtcActivating ==>
          || (sys.enablePc == EnableWaiting && s.hardwareReady.Raised?)
          || sys.enablePc == EnableSwitching
          || s.activateFailed.Raised?)
    && (s.phase == InterBatchDelay ==> s.batch + 1 < BATCHES)
  }

  lemma DescentLeavesRequest(s: State, c: Config, f: Frame)
    requires Walking(s.phase)
    ensures Descend(s, c, f).enableRequest == s.enableRequest
  {
    hide StageDone, FirstUnsettled, FirstFault;
  }

  lemma ClimbLeavesRequest(s: State, c: Config, f: Frame)
    requires Ascending(s.phase)
    ensures Climb(s, c, f).enableRequest == s.enableRequest
  {
    hide FirstFault, FirstInvalid, FirstLate, BatchComplete, EnableCommands, HoldCommands;
  }

  lemma RequestIsPickedUp(s: State, c: Config, f: Frame)
    ensures Tick(s, c, f).enableRequest.Raised? ==> s.enableRequest.Raised? && s.phase != Idle
  {
    TickByPhase(s, c, f);
    hide Tick, Climb, Descend, FirstFault, FirstNotIn, FirstPending;
    if Walking(s.phase) {
      DescentLeavesRequest(s, c, f);
      DescentLeavesRequest(StartDescent(s, c, s.phase, f.now), c, f);
    } else if Ascending(s.phase) {
      ClimbLeavesRequest(s, c, f);
    }
  }

  lemma CycleKeepsHandler(sys: Sys, c: Config, f: Frame)
    requires Patient(c) && Inv(sys) && HandlerPresent(sys, c) && f.now == sys.clock
    ensures HandlerPresent(Next(sys, c, Cycle(f)), c)
  {
    hide Tick, UpTo, NoFault;
    RequestIsPickedUp(sys.rt, c, f);
    TickLadder(sys.rt, c, f);
    TickAnswers(sys.rt, c, f);
    if Ascending(sys.rt.phase) { CycleKeepsClimbEnd(sys.rt, c, f, sys.lastCycle); }
  }

  lemma StepKeepsHandler(sys: Sys, c: Config, a: Action)
    requires Patient(c) && Inv(sys) && HandlerPresent(sys, c) && Can(sys, c, a)
    ensures HandlerPresent(Next(sys, c, a), c)
  {
    if a.Cycle? {
      hide Next, HandlerPresent, Inv;
      CycleKeepsHandler(sys, c, a.f);
    } else {
      hide Tick;
      ServiceKeepsHandler(sys, c, a);
    }
  }

  lemma ServiceKeepsHandler(sys: Sys, c: Config, a: Action)
    requires Patient(c) && Inv(sys) && HandlerPresent(sys, c) && Can(sys, c, a) && !a.Cycle?
    ensures HandlerPresent(Next(sys, c, a), c)
  {
    hide Tick, ClimbTime, Round, ClimbEnd;
    ServiceKeepsClimbEnd(sys, c, a);
    ClimbEndIsAhead(sys.rt, c);
    if a.DisableCall? || a.DisableSwitched? || a.ResetCall? {
      ServiceOfOthers(sys, c, a);
      hide Next, AdmitDisable, AdmitReset, CompleteDeactivation;
    }
  }

  lemma ClimbEndIsAhead(s: State, c: Config)
    ensures ClimbEnd(s, c) >= s.deadline + c.tickGap
  {
  }

  lemma ServiceKeepsClimbEnd(sys: Sys, c: Config, a: Action)
    requires !a.Cycle?
    ensures Ascending(Next(sys, c, a).rt.phase) ==> ClimbEnd(Next(sys, c, a).rt, c) == ClimbEnd(sys.rt, c)
  {
    hide Tick, Round;
  }

  /** Disable and reset calls leave what the enable handler waits for alone. */
  lemma ServiceOfOthers(sys: Sys, c: Config, a: Action)
    requires a.DisableCall? || a.DisableSwitched? || a.ResetCall?
    ensures var s, t := sys.rt, Next(sys, c, a).rt;
            && t.enableRequest == s.enableRequest && t.hardwareReady == s.hardwareReady
            && t.activateFailed == s.activateFailed && t.deadline == s.deadline && t.batch == s.batch
            && (t.phase == s.phase || t.phase == JtcDeactivating)
            && Next(sys, c, a) == sys.(rt := t, disablePc := Next(sys, c, a).disablePc,
                                       resetPc := Next(sys, c, a).resetPc)
  {
  }

  lemma {:induction false} HandlerStaysPresent(c: Config, states: seq<Sys>, acts: seq<Action>, n: nat)
    requires Patient(c) && IsRun(c, states, acts) && n <= |acts|
    ensures HandlerPresent(states[n], c)
  {
    hide Tick;
    if n > 0 {
      HandlerStaysPresent(c, states, acts, n - 1);
      RunInv(c, states, acts, n - 1);
      StepKeepsHandler(states[n - 1], c, acts[n - 1]);
    }
  }

  /** With a service timeout longer than any climb, a robot waiting for its
      trajectory controller always has a handler that will end the wait, or the
      failed switch is already on record. */
  lemma NeverStranded(c: Config, states: seq<Sys>, acts: seq<Action>, n: nat)
    requires Patient(c) && IsRun(c, states, acts) && n <= |acts|
    requires states[n].rt.phase == JtcActivating
    ensures var sys := states[n];
            || (sys.enablePc == EnableWaiting && sys.rt.hardwareReady.Raised?)
            || sys.enablePc == EnableSwitching
            || sys.rt.activateFailed.Raised?
  {
    HandlerStaysPresent(c, states, acts, n);
  }

  const DEFAULTS: Config :=
    Config(4_000_000_000, 4_000_000_000, 200_000_000, 4_000_000_000, 30_000_000_000, 4_000_000)

  lemma DefaultsArePatient()
    ensures Patient(DEFAULTS) && ClimbTime(DEFAULTS) == 20_836_000_000
  {
    ClimbTimeIs(DEFAULTS);
  }

  ghost predicate Stranded(sys: Sys) {
    sys.rt.phase == JtcActivating && sys.enablePc !in {EnableWaiting, EnableSwitching} &&
    sys.rt.activateFailed.Lowered? && Ownership(sys.rt)
  }

  /** Why that matters: without a handler nothing but a drive fault ends the wait,
      whatever services are called. */
  lemma StrandedStays(sys: Sys, c: Config, a: Action)
    requires Stranded(sys) && Can(sys, c, a)
    requires a.Cycle? ==> NoFault(a.f.states)
    ensures Stranded(Next(sys, c, a))
  {
    hide FirstFault;
  }

  ghost predicate Paced(sys: Sys, c: Config) {
    var s := sys.rt;
    && sys.lastCycle <= sys.clock <= sys.lastCycle + c.tickGap
    && (Ascending(s.phase) ==> sys.lastCycle <= s.deadline)
    && (s.phase == InterBatchDelay ==> s.batch + 1 < BATCHES)
  }

  lemma CycleKeepsPaced(sys: Sys, c: Config, f: Frame)
    requires Paced(sys, c) && f.now == sys.clock
    ensures Paced(Next(sys, c, Cycle(f)), c)
  {
    hide Tick, UpTo, NoFault;
    TickLadder(sys.rt, c, f);
  }

  lemma ServiceKeepsPaced(sys: Sys, c: Config, a: Action)
    requires Paced(sys, c) && Can(sys, c, a) && !a.Cycle?
    ensures Paced(Next(sys, c, a), c)
  {
    ClockStays(sys, c, a);
    StepOffLadder(sys, c, a);
    assert Ascending(Next(sys, c, a).rt.phase) ==> Next(sys, c, a).rt.deadline == sys.rt.deadline by { hide Tick; }
    hide Next, Can;
  }

  lemma StepKeepsPace(sys: Sys, c: Config, a: Action)
    requires Paced(sys, c) && Can(sys, c, a)
    ensures Paced(Next(sys, c, a), c)
    ensures Ascending(sys.rt.phase) && Ascending(Next(sys, c, a).rt.phase) ==>
              ClimbEnd(Next(sys, c, a).rt, c) <= ClimbEnd(sys.rt, c)
  {
    hide Tick, UpTo, NoFault, ClimbEnd;
    if a.Cycle? {
      CycleKeepsPaced(sys, c, a.f);
      assert a == Cycle(a.f);
      if Ascending(sys.rt.phase) { CycleKeepsClimbEnd(sys.rt, c, a.f, sys.lastCycle); }
    } else {
      ServiceKeepsPaced(sys, c, a);
      ServiceKeepsClimbEnd(sys, c, a);
      StepOffLadder(sys, c, a);
      hide Next, Paced;
    }
  }

  lemma {:induction false} RunIsPaced(c: Config, states: seq<Sys>, acts: seq<Action>, n: nat)
    requires IsRun(c, states, acts) && n <= |acts|
    ensures Paced(states[n], c)
  {
    hide Tick;
    if n > 0 {
      RunIsPaced(c, states, acts, n - 1);
      StepKeepsPace(states[n - 1], c, acts[n - 1]);
    }
  }

  lemma {:induction false} ClimbEndHolds(c: Config, states: seq<Sys>, acts: seq<Action>, i: nat, n: nat)
    requires IsRun(c, states, acts) && i <= n <= |acts|
    requires forall k | i <= k <= n :: Ascending(states[k].rt.phase)
    ensures ClimbEnd(states[n].rt, c) <= ClimbEnd(states[i].rt, c)
  {
    hide Tick, ClimbEnd;
    if i < n {
      ClimbEndHolds(c, states, acts, i, n - 1);
      RunIsPaced(c, states, acts, n - 1);
      StepKeepsPace(states[n - 1], c, acts[n - 1]);
    }
  }

  /** From the cycle that picks an enable up, every cycle of its climb, the last
      one included, comes within five batch timeouts, four pauses and nine cycle
      gaps, whatever the drives report and whichever services are called. */
  lemma ClimbIsBounded(c: Config, states: seq<Sys>, acts: seq<Action>, i: nat, n: nat)
    requires IsRun(c, states, acts) && i < n < |acts|
    requires acts[i].Cycle? && states[i].rt.phase == Idle && acts[n].Cycle?
    requires forall k | i < k <= n :: Ascending(states[k].rt.phase)
    ensures acts[n].f.now <= acts[i].f.now + 5 * c.batch + 4 * c.delay + 9 * c.tickGap
  {
    hide Tick, UpTo, NoFault;
    TickLadder(states[i].rt, c, acts[i].f);
    ClimbEndHolds(c, states, acts, i + 1, n);
    RunIsPaced(c, states, acts, n);
    CycleKeepsClimbEnd(states[n].rt, c, acts[n].f, states[n].lastCycle);
    ClimbTimeIs(c);
  }
}
