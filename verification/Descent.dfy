/** Going down: every descent ends in time, ends at rest, never energises an
    axis, and reports the failure that started it. */
module Descent {
  import opened Cia402
  import opened EnableTick
  import opened Protocol
  import opened Answers

  predicate Down(phase: Phase) {
    Walking(phase) || phase == EmergencyQuickStop
  }

  predicate Resting(phase: Phase) {
    phase == Idle || phase == Failed
  }

  // ---------- The stages ----------

  /** What the drives must have done for a stage to be over. */
  predicate StageOver(stage: DescentStage, states: States) {
    forall i | 0 <= i < AXES ::
      if stage == 0 then states[i] != OperationEnabled
      else if stage == 1 then states[i] != OperationEnabled && states[i] != SwitchedOn
      else IsFault(states[i]) || ConfirmedTerminal(i, states[i])
  }

  lemma StageOverIsDone(stage: DescentStage, states: States)
    ensures StageOver(stage, states) <==> StageDone(stage, states)
  {
  }

  /** The first axis that is neither faulted nor at rest. */
  ghost predicate FirstUpright(f: Frame, detail: Failure) {
    && 0 <= detail.joint < AXES && detail.word == f.words[detail.joint]
    && !IsFault(f.states[detail.joint]) && !ConfirmedTerminal(detail.joint, f.states[detail.joint])
    && forall i | 0 <= i < detail.joint :: IsFault(f.states[i]) || ConfirmedTerminal(i, f.states[i])
  }

  lemma UnfinishedIsUpright(stage: DescentStage, f: Frame)
    requires !StageOver(stage, f.states)
    ensures var axis := FirstUnsettled(f.states);
            axis >= 0 && forall reason, batch :: FirstUpright(f, Failure(reason, batch, axis, f.words[axis]))
  {
    var i :| 0 <= i < AXES && if stage == 0 then f.states[i] == OperationEnabled
                              else if stage == 1 then f.states[i] == OperationEnabled || f.states[i] == SwitchedOn
                              else !(IsFault(f.states[i]) || ConfirmedTerminal(i, f.states[i]));
    assert !Settled(i, f.states[i]);
  }

  /** A stage timeout keeps a failure on record, or records the first axis that has
      not come to rest, as a fault if there is one and as a timeout if not. */
  ghost predicate Blames(s: State, f: Frame, t: State) {
    if s.primary.reason != Success then t.primary == s.primary && t.lastFailure == s.lastFailure
    else
      && FirstUpright(f, t.primary) && t.primary.batch == s.primary.batch
      && t.primary.reason == (if exists i | 0 <= i < AXES :: IsFault(f.states[i]) then FaultRequiresReset
                              else DisableTimeout)
      && t.lastFailure == t.primary.(batch := -1)
  }

  lemma BlameIsFair(stage: DescentStage, s: State, f: Frame)
    requires !StageOver(stage, f.states)
    ensures Blames(s, f, BlameTimeout(s, f))
  {
    UnfinishedIsUpright(stage, f);
    hide FirstFault, FirstUnsettled, StageOver;
  }

  /** How a cycle of a started descent goes on: the next stage or the end when the
      stage is over, else the emergency, or in an emergency the end, when its time
      is up. */
  lemma DescentDecides(s: State, c: Config, f: Frame)
    requires Walking(s.phase) && s.deadline > 0
    ensures var t := Tick(s, c, f);
            if StageOver(s.stage, f.states) then
              if s.stage < 2 then t.phase == s.phase && t.stage == s.stage + 1 && t.deadline == f.now + c.stage
              else Resting(t.phase)
            else if f.now < s.deadline then
              t.phase == s.phase && t.stage == s.stage && t.deadline == s.deadline && t.primary == s.primary
            else
              Blames(s, f, t) &&
              if s.phase == EmergencyDisable then Resting(t.phase)
              else t.phase == EmergencyQuickStop && t.interrupted == s.owner
  {
    TickByPhase(s, c, f);
    StageOverIsDone(s.stage, f.states);
    var s1 := s.(commands := DescentCommands(f));
    FinishRests(s1, f);
    FinishRests(BlameTimeout(s1, f), f);
    FinishKeepsFailure(BlameTimeout(s1, f), f);
    if !StageOver(s.stage, f.states) {
      BlameIsFair(s.stage, s, f);
      BlameAlike(s, s1, f);
      if s.phase == EmergencyDisable { FinishKeepsRecord(BlameTimeout(s1, f), f); }
    }
    hide Tick, Finish, StageDone, StageOver, FirstUnsettled, FirstFault, FirstUpright;
  }

  lemma BlameAlike(s: State, s1: State, f: Frame)
    requires s1 == s.(commands := s1.commands)
    ensures BlameTimeout(s1, f) == BlameTimeout(s, f).(commands := s1.commands)
  {
    hide FirstUnsettled, FirstFault;
  }

  lemma FinishKeepsRecord(s: State, f: Frame)
    requires s.phase == EmergencyDisable
    ensures Finish(s, f).lastFailure == s.lastFailure
  {
    hide FirstUnsettled, FirstFault;
  }

  /** An emergency goes from the quick stop to its own descent as soon as no axis
      runs, or when its time is up. */
  lemma QuickStopDecides(s: State, c: Config, f: Frame)
    requires s.phase == EmergencyQuickStop
    ensures var t := Tick(s, c, f);
            if (forall i | 0 <= i < AXES :: f.states[i] != OperationEnabled) || f.now >= s.deadline then
              t.phase == EmergencyDisable && t.stage == 0 && t.deadline == f.now + c.stage
            else t.phase == EmergencyQuickStop && t.deadline == s.deadline
  {
    TickByPhase(s, c, f);
    hide Tick, QuickStopCommands;
  }

  // ---------- Termination ----------

  /** How many stage timeouts a descent can still use up: three stages, one
      quick stop and three emergency stages at most. */
  function Budgets(s: State): nat {
    match s.phase
    case EmergencyDisable => 3 - s.stage
    case EmergencyQuickStop => 4
    case _ => 7 - s.stage
  }

  /** A cycle of a started descent ends it, waits on, or uses up a budget and
      starts a new deadline. */
  ghost predicate DescentMoves(s: State, c: Config, f: Frame, t: State) {
    || Resting(t.phase)
    || (t.phase == s.phase && t.stage == s.stage && t.deadline == s.deadline && f.now < s.deadline)
    || (Down(t.phase) && Budgets(t) < Budgets(s) && t.deadline == f.now + c.stage)
  }

  lemma FinishRests(s: State, f: Frame)
    requires Walking(s.phase)
    ensures Resting(Finish(s, f).phase)
  {
  }

  lemma DescendMoves(s: State, c: Config, f: Frame)
    requires Walking(s.phase)
    ensures DescentMoves(s, c, f, Descend(s, c, f))
  {
    hide Finish, StageDone, FirstUnsettled, FirstFault;
    var s1 := s.(commands := DescentCommands(f));
    FinishRests(s1, f);
    FinishRests(BlameTimeout(s1, f), f);
  }

  lemma TickMoves(s: State, c: Config, f: Frame)
    requires Down(s.phase) && s.deadline > 0
    ensures DescentMoves(s, c, f, Tick(s, c, f))
  {
    TickByPhase(s, c, f);
    hide Tick, Descend;
    if Walking(s.phase) { DescendMoves(s, c, f); }
  }

  lemma ClimbEnters(s: State, c: Config, f: Frame)
    requires !Down(s.phase)
    ensures var t := Climb(s, c, f);
            Down(t.phase) ==> t.deadline == f.now + c.stage && (Walking(t.phase) ==> t.stage == 0)
  {
    hide EnableCommands, HoldCommands, FirstFault, FirstInvalid, FirstLate, BatchComplete;
  }

  lemma ResetEnters(s: State, c: Config, f: Frame)
    requires Resetting(s.phase)
    ensures var t := ResetCycle(s, c, f);
            Down(t.phase) ==> t.deadline == f.now + c.stage && (Walking(t.phase) ==> t.stage == 0)
  {
    hide FirstPending, ResetCommands;
  }

  /** Entering a descent, or starting the one pending since activation, sets the
      first deadline and begins with the first stage. */
  lemma TickEnters(s: State, c: Config, f: Frame)
    requires !Down(s.phase) || (s.phase == StartupSanitizing && s.deadline == 0)
    ensures var t := Tick(s, c, f);
            Down(t.phase) ==>
              t.deadline == f.now + c.stage && (s.phase != StartupSanitizing && Walking(t.phase) ==> t.stage == 0)
  {
    TickByPhase(s, c, f);
    hide Tick, Descend, Climb, ResetCycle, FirstFault, FirstNotIn;
    if s.phase == StartupSanitizing {
      DescendMoves(StartDescent(s, c, s.phase, f.now), c, f);
    } else if Ascending(s.phase) {
      ClimbEnters(s, c, f);
    } else if Resetting(s.phase) {
      ResetEnters(s, c, f);
    } else {
      hide IdleCycle, FailedCycle, HoldCycle, ActivatingCycle, Watch, QuickStop;
      RestEnters(s, c, f);
      HeldEnters(s, c, f);
    }
  }

  lemma RestEnters(s: State, c: Config, f: Frame)
    requires !Down(s.phase)
    ensures s.phase == Idle ==> !Down(IdleCycle(s, c, f).phase)
    ensures s.phase == Failed ==>
              Down(FailedCycle(s, c, f).phase) ==>
              FailedCycle(s, c, f).deadline == f.now + c.stage && FailedCycle(s, c, f).stage == 0
  {
    hide FirstFault, FaultTargets, All;
  }

  lemma HeldEnters(s: State, c: Config, f: Frame)
    ensures Watched(s.phase) ==> Down(Tick(s, c, f).phase) ==>
              Tick(s, c, f).deadline == f.now + c.stage && (Walking(Tick(s, c, f).phase) ==> Tick(s, c, f).stage == 0)
  {
    TickByPhase(s, c, f);
    hide Tick, FirstFault, FirstNotIn, QuickStopCommands, All;
  }

  /** Services and the worker cannot touch a descent. */
  ghost predicate SameDescent(s: State, t: State) {
    && t.phase == s.phase && t.stage == s.stage && t.deadline == s.deadline
    && t.owner == s.owner && t.interrupted == s.interrupted && t.primary == s.primary
    && t.commands == s.commands && t.enable.history == s.enable.history && t.enable.outcome == s.enable.outcome
    && t.disable.history == s.disable.history
  }

  lemma ServicesLeaveDescent(sys: Sys, c: Config, a: Action)
    requires Down(sys.rt.phase) && !a.Cycle?
    ensures SameDescent(sys.rt, Next(sys, c, a).rt)
  {
  }

  /** The latest time at which the descent is over, as seen from this state. */
  function DownEnd(s: State, c: Config): int {
    s.deadline + c.tickGap + (Budgets(s) - 1) * (c.stage + c.tickGap)
  }

  lemma LessBudgets(fewer: nat, more: nat, unit: nat)
    requires fewer < more
    ensures (fewer - 1) * unit + unit <= (more - 1) * unit
  {
    assert (more - 1) * unit == (fewer - 1) * unit + unit + (more - fewer - 1) * unit;
  }

  /** A descent that has just set its deadline ends within seven budgets. */
  lemma DownEndOnEntry(s: State, c: Config, now: nat)
    requires Down(s.phase) && s.deadline == now + c.stage
    ensures DownEnd(s, c) == now + Budgets(s) * (c.stage + c.tickGap) <= now + 7 * (c.stage + c.tickGap)
  {
    var unit := c.stage + c.tickGap;
    assert Budgets(s) <= 7;
    hide Budgets;
    assert Budgets(s) * unit == (Budgets(s) - 1) * unit + unit;
    assert (7 - Budgets(s)) * unit >= 0;
  }

  lemma CycleKeepsDownEnd(s: State, c: Config, f: Frame, last: nat)
    requires Down(s.phase) && last < s.deadline && f.now <= last + c.tickGap
    ensures var t := Tick(s, c, f);
            f.now <= DownEnd(s, c) &&
            (Resting(t.phase) || (Down(t.phase) && DownEnd(t, c) <= DownEnd(s, c) && f.now < t.deadline))
  {
    hide Tick;
    TickMoves(s, c, f);
    var t := Tick(s, c, f);
    if Down(t.phase) && Budgets(t) < Budgets(s) {
      LessBudgets(Budgets(t), Budgets(s), c.stage + c.tickGap);
    }
    LessBudgets(0, Budgets(s), c.stage + c.tickGap);
  }

  /** The descent has started and the clock has not outrun its deadline. */
  ghost predicate Falling(sys: Sys, c: Config) {
    Down(sys.rt.phase) && sys.lastCycle < sys.rt.deadline && sys.clock <= sys.lastCycle + c.tickGap
  }

  lemma {:induction false} FallKeepsDownEnd(c: Config, states: seq<Sys>, acts: seq<Action>, n: nat)
    requires IsPath(c, states, acts) && n <= |acts|
    requires Falling(states[0], c)
    requires forall k | 0 <= k <= n :: Down(states[k].rt.phase)
    ensures Falling(states[n], c)
    ensures DownEnd(states[n].rt, c) <= DownEnd(states[0].rt, c)
  {
    hide Tick;
    if n > 0 {
      FallKeepsDownEnd(c, states, acts, n - 1);
      var before, a := states[n - 1], acts[n - 1];
      if a.Cycle? {
        CycleKeepsDownEnd(before.rt, c, a.f, before.lastCycle);
      } else {
        ServicesLeaveDescent(before, c, a);
      }
    }
  }

  /** Every cycle of a descent comes within as many stage budgets of its entry as
      the entry state has left: at most seven. */
  lemma DescentIsBounded(c: Config, states: seq<Sys>, acts: seq<Action>, n: nat)
    requires IsPath(c, states, acts) && 0 < n < |acts|
    requires acts[0].Cycle? && acts[n].Cycle?
    requires !Down(states[0].rt.phase) || (states[0].rt.phase == StartupSanitizing && states[0].rt.deadline == 0)
    requires forall k | 1 <= k <= n :: Down(states[k].rt.phase)
    ensures acts[n].f.now <= acts[0].f.now + Budgets(states[1].rt) * (c.stage + c.tickGap)
    ensures acts[n].f.now <= acts[0].f.now + 7 * (c.stage + c.tickGap)
  {
    hide Tick, DownEnd, Budgets;
    TickEnters(states[0].rt, c, acts[0].f);
    FallKeepsDownEnd(c, states[1..], acts[1..], n - 1);
    CycleKeepsDownEnd(states[n].rt, c, acts[n].f, states[n].lastCycle);
    DownEndOnEntry(states[1].rt, c, acts[0].f.now);
  }

  /** So once that time has passed, the descent has reached Idle or Failed,
      without leaving the way down before that. */
  lemma DescentComesToRest(c: Config, states: seq<Sys>, acts: seq<Action>, n: nat) returns (k: nat)
    requires IsPath(c, states, acts) && 0 < n < |acts|
    requires acts[0].Cycle? && acts[n].Cycle?
    requires !Down(states[0].rt.phase) || (states[0].rt.phase == StartupSanitizing && states[0].rt.deadline == 0)
    requires Down(states[1].rt.phase)
    requires acts[n].f.now > acts[0].f.now + 7 * (c.stage + c.tickGap)
    ensures 1 < k <= n && Resting(states[k].rt.phase)
    ensures forall j | 1 <= j < k :: Down(states[j].rt.phase)
  {
    hide Tick, DownEnd;
    k := 1;
    while k < n && Down(states[k + 1].rt.phase)
      invariant 1 <= k <= n
      invariant forall j | 1 <= j <= k :: Down(states[j].rt.phase)
    {
      k := k + 1;
    }
    if k == n { DescentIsBounded(c, states, acts, n); }
    TickEnters(states[0].rt, c, acts[0].f);
    FallKeepsDownEnd(c, states[1..], acts[1..], k - 1);
    if acts[k].Cycle? {
      CycleKeepsDownEnd(states[k].rt, c, acts[k].f, states[k].lastCycle);
    } else {
      ServicesLeaveDescent(states[k], c, acts[k]);
    }
    k := k + 1;
  }

  // ---------- At rest ----------

  /** A cycle that reports the robot disabled has read every axis at rest. */
  ghost predicate IdleIsConfirmed(f: Frame, t: State) {
    t.phase == Idle ==> AllConfirmed(f.states)
  }

  lemma SettledWithoutFault(states: States)
    requires FirstUnsettled(states) < 0 && FirstFault(states) < 0
    ensures AllConfirmed(states)
  {
    forall i | 0 <= i < AXES ensures ConfirmedTerminal(i, states[i]) {
      assert Settled(i, states[i]) && !IsFault(states[i]);
    }
  }

  lemma FinishConfirms(s: State, f: Frame)
    requires Walking(s.phase)
    requires s.phase == EmergencyDisable || FirstUnsettled(f.states) < 0
    ensures IdleIsConfirmed(f, Finish(s, f))
  {
    if FirstUnsettled(f.states) < 0 && FirstFault(f.states) < 0 { SettledWithoutFault(f.states); }
    hide FirstUnsettled, FirstFault, AllConfirmed;
  }

  lemma DescendConfirms(s: State, c: Config, f: Frame)
    requires Walking(s.phase)
    ensures IdleIsConfirmed(f, Descend(s, c, f))
  {
    hide Finish, FirstUnsettled, FirstFault, AllConfirmed;
    var s1 := s.(commands := DescentCommands(f));
    if FirstUnsettled(f.states) < 0 || s.phase == EmergencyDisable {
      FinishConfirms(s1, f);
      FinishConfirms(BlameTimeout(s1, f), f);
    }
  }

  lemma ResetConfirms(s: State, f: Frame)
    ensures s.phase == ResetHigh ==> IdleIsConfirmed(f, ResetPulse(s, f))
  {
    if FirstPending(s.targets, f) < 0 {
      forall i | 0 <= i < AXES ensures ConfirmedTerminal(i, f.states[i]) {
        assert !ResetPending(s.targets[i], i, f.states[i]);
      }
    }
    hide FirstPending, AllConfirmed;
  }

  lemma TickConfirms(s: State, c: Config, f: Frame)
    requires Down(s.phase) || s.phase == ResetHigh
    ensures IdleIsConfirmed(f, Tick(s, c, f))
  {
    TickByPhase(s, c, f);
    hide Tick, Descend, ResetPulse, AllConfirmed;
    if s.phase == ResetHigh {
      ResetConfirms(s, f);
    } else if Walking(s.phase) {
      DescendConfirms(s, c, f);
      DescendConfirms(StartDescent(s, c, s.phase, f.now), c, f);
    }
  }

  /** A reset request in Failed that finds no fault leads to Idle as well.  It asks
      for no axis at rest, so the reported Idle says nothing about power. */
  lemma FailedToIdle(s: State, c: Config, f: Frame)
    requires s.phase == Failed
    ensures Tick(s, c, f).phase == Idle <==>
              s.resetRequest.Raised? && s.disableRequest.Lowered? && FirstFault(f.states) < 0
  {
  }

  lemma FailedToIdleWhilePowered(s: State, c: Config, f: Frame)
    requires s.phase == Failed && s.resetRequest.Raised? && s.disableRequest.Lowered?
    requires forall i | 0 <= i < AXES :: f.states[i] == OperationEnabled
    ensures Tick(s, c, f).phase == Idle && !AllConfirmed(f.states)
  {
    FailedToIdle(s, c, f);
    assert !ConfirmedTerminal(0, f.states[0]);
  }

  lemma ClimbNeverIdles(s: State, c: Config, f: Frame)
    requires Ascending(s.phase)
    ensures Climb(s, c, f).phase != Idle
  {
    hide FirstFault, FirstInvalid, FirstLate, BatchComplete, EnableCommands, HoldCommands;
  }

  /** These are the only ways to Idle: whichever thread takes the step, either a
      cycle has read every axis at rest, or it was that shortcut. */
  lemma EveryWayToIdle(sys: Sys, c: Config, a: Action)
    requires Can(sys, c, a) && sys.rt.phase != Idle && Next(sys, c, a).rt.phase == Idle
    ensures a.Cycle?
    ensures AllConfirmed(a.f.states) ||
            (sys.rt.phase == Failed && sys.rt.resetRequest.Raised? && sys.rt.disableRequest.Lowered? &&
             FirstFault(a.f.states) < 0)
  {
    var s := sys.rt;
    if a.Cycle? {
      TickByPhase(s, c, a.f);
      hide Tick, Climb, Descend, ResetPulse, QuickStopCommands, AllConfirmed, FirstFault, FirstNotIn;
      if Down(s.phase) || s.phase == ResetHigh {
        TickConfirms(s, c, a.f);
      } else if s.phase == Failed {
        FailedToIdle(s, c, a.f);
      } else if Ascending(s.phase) {
        ClimbNeverIdles(s, c, a.f);
      }
    }
  }

  // ---------- The reported failure ----------

  /** A descent with a recorded failure keeps it, and the enable it answers is
      answered with it. */
  ghost predicate KeepsFailure(s: State, t: State) {
    && t.primary == s.primary
    && (t.enable != s.enable ==> t.enable == Publish(s.enable, Refused(s.primary)))
    && (Emergency(s.phase) && t.disable != s.disable ==> t.disable == Publish(s.disable, Refused(s.primary)))
  }

  lemma FinishKeepsFailure(s: State, f: Frame)
    requires Walking(s.phase)
    ensures KeepsFailure(s, Finish(s, f))
  {
    hide FirstUnsettled, FirstFault;
  }

  lemma DescendKeepsFailure(s: State, c: Config, f: Frame)
    requires Walking(s.phase) && s.primary.reason != Success
    ensures KeepsFailure(s, Descend(s, c, f))
  {
    hide Finish, StageDone, FirstUnsettled, FirstFault;
    FinishKeepsFailure(s.(commands := DescentCommands(f)), f);
  }

  lemma TickKeepsFailure(s: State, c: Config, f: Frame)
    requires Down(s.phase) && s.primary.reason != Success
    ensures KeepsFailure(s, Tick(s, c, f))
  {
    TickByPhase(s, c, f);
    hide Tick, Descend;
    if Walking(s.phase) {
      DescendKeepsFailure(s, c, f);
      DescendKeepsFailure(StartDescent(s, c, s.phase, f.now), c, f);
    }
  }

  /** What the recorded failure is, when an enable turns into a rollback or an
      emergency starts: the evidence of that very cycle. */
  ghost predicate Evidence(s: State, f: Frame, p: Failure) {
    match p.reason
    case FaultDetected =>
      p.joint == FirstFault(f.states) >= 0 && p.word == f.words[p.joint] &&
      p.batch == if s.owner == ByEnable then s.batch else -1
    case UnexpectedDriveState =>
      s.phase == Enabled && p.joint == FirstNotIn(f.states, OperationEnabled) >= 0 &&
      !IsFault(f.states[p.joint]) && p.word == f.words[p.joint]
    case EnableInvalidState =>
      s.phase == Enabling && p.joint == FirstInvalid(s.batch, f) >= 0 &&
      p.word == f.words[p.joint] && p.batch == s.batch
    case EnableBatchTimeout =>
      s.phase == Enabling && p.joint == FirstLate(ENABLE_BATCHES[s.batch], f) &&
      f.states[p.joint] != OperationEnabled &&
      p.word == f.words[p.joint] && p.batch == s.batch && f.now >= s.deadline
    case JtcActivateFailed =>
      s.phase == JtcActivating && s.activateFailed.Raised? && p == Failure(JtcActivateFailed, -1, -1, 0)
    case _ => false
  }

  lemma LateAxisIsLate(batch: Batch, f: Frame)
    requires !BatchComplete(batch, f)
    ensures f.states[FirstLate(ENABLE_BATCHES[batch], f)] != OperationEnabled
  {
  }

  lemma ClimbBlames(s: State, c: Config, f: Frame)
    requires Ascending(s.phase)
    ensures var t := Climb(s, c, f);
            t.phase == Rollback || Emergency(t.phase) ==> Evidence(s, f, t.primary) && t.lastFailure == t.primary
  {
    if !BatchComplete(s.batch, f) { LateAxisIsLate(s.batch, f); }
    hide EnableCommands, HoldCommands, FirstLate, BatchComplete, FirstFault, FirstInvalid;
  }

  lemma WatchBlames(s: State, c: Config, f: Frame)
    requires !Down(s.phase)
    ensures var w := Watch(s, c, f);
            if Emergency(w.phase) then Evidence(s, f, w.primary) && w.lastFailure == w.primary else w == s
  {
    var first := FirstNotIn(f.states, OperationEnabled);
    assert first >= 0 && IsFault(f.states[first]) ==> first == FirstFault(f.states);
    hide FirstInvalid, FirstFault, FirstNotIn;
  }

  lemma ResetEndsPlainly(s: State, c: Config, f: Frame)
    requires Resetting(s.phase)
    ensures ResetCycle(s, c, f).phase != Rollback && !Emergency(ResetCycle(s, c, f).phase)
  {
    hide FirstPending;
  }

  lemma RestEndsPlainly(s: State, c: Config, f: Frame)
    requires Resting(s.phase)
    ensures var t := if s.phase == Idle then IdleCycle(s, c, f) else FailedCycle(s, c, f);
            t.phase != Rollback && !Emergency(t.phase)
  {
    hide FirstFault;
  }

  lemma TickBlames(s: State, c: Config, f: Frame)
    requires !Down(s.phase)
    ensures var t := Tick(s, c, f);
            t.phase == Rollback || Emergency(t.phase) ==> Evidence(s, f, t.primary) && t.lastFailure == t.primary
  {
    TickByPhase(s, c, f);
    hide Tick, Climb, Watch, ResetCycle, IdleCycle, FailedCycle, FirstInvalid, FirstFault, FirstNotIn;
    WatchBlames(s, c, f);
    if Resting(s.phase) { RestEndsPlainly(s, c, f); }
    if Ascending(s.phase) { ClimbBlames(s, c, f); }
    if Resetting(s.phase) { ResetEndsPlainly(s, c, f); }
  }

  /** Through any number of stage timeouts, the emergency fallback and any service
      calls, the failure recorded on entry is the one the enable is answered with,
      and in an emergency the disable it interrupted too. */
  lemma {:induction false} EntryFailureIsReported(c: Config, states: seq<Sys>, acts: seq<Action>, n: nat)
    requires IsPath(c, states, acts) && n < |acts|
    requires forall k | 0 <= k <= n :: Down(states[k].rt.phase)
    requires states[0].rt.primary.reason != Success
    ensures var s, t := states[n].rt, states[n + 1].rt;
            s.primary == t.primary == states[0].rt.primary &&
            (t.enable.history != s.enable.history ==>
               t.enable.history == s.enable.history + [Refused(states[0].rt.primary)]) &&
            (Emergency(s.phase) && t.disable.history != s.disable.history ==>
               t.disable.history == s.disable.history + [Refused(states[0].rt.primary)])
  {
    hide Tick;
    if n > 0 { EntryFailureIsReported(c, states, acts, n - 1); }
    if acts[n].Cycle? {
      TickKeepsFailure(states[n].rt, c, acts[n].f);
    } else {
      ServicesLeaveDescent(states[n], c, acts[n]);
    }
  }
}
