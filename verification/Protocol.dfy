/** The three service handlers and the worker timer, interleaved freely with
    real-time cycles.  A handler is a sequence of atomic steps on the shared
    state: its admission, its looks at the result slot, the end of a controller
    switch, its return. */
module Protocol {
  import opened Values
  import opened EnableTick

  datatype Switch = Switched | Rejected | Ambiguous

  // ---------- Handler steps on the shared state ----------

  predicate EnableAdmissible(s: State) {
    !s.restartRequired.Raised? && s.phase == Idle && s.owner == Nobody
  }

  function AdmitEnable(s: State): State {
    s.(hardwareReady := Lowered, enableRequest := Raised, owner := ByEnable, enable := s.enable.(ready := Lowered))
  }

  function CompleteActivation(s: State, result: Switch): State {
    if result == Switched then
      if s.phase == JtcActivating then
        s.(lastFailure := NO_FAILURE, phase := Enabled, enable := Publish(s.enable, Achieved(Success)),
           owner := Nobody)
      else s
    else
      s.(restartRequired := RaisedIf(s.restartRequired.Raised? || result == Ambiguous),
         stopJtc := RaisedIf(s.stopJtc.Raised? || result == Ambiguous),
         activateFailed := RaisedIf(s.activateFailed.Raised? || s.phase == JtcActivating))
  }

  predicate Preempts(s: State) {
    (s.owner == ByEnable && (s.phase == Enabling || s.phase == InterBatchDelay)) ||
    (s.owner == ByReset && (s.phase == ResetLow || s.phase == ResetHigh))
  }

  predicate DisableAdmissible(s: State) {
    match s.phase
    case Idle | StartupSanitizing | EmergencyQuickStop | EmergencyDisable | JtcActivating
       | Disabling | Rollback => false
    case _ => Preempts(s) || s.owner == Nobody
  }

  /** A disable of an enabled robot first lets go of the trajectory controller;
      its request reaches the cycle only after that switch. */
  function AdmitDisable(s: State): State
    requires DisableAdmissible(s)
  {
    var s1 := s.(owner := if Preempts(s) then s.owner else ByDisable,
                 disable := s.disable.(ready := Lowered), deactivateFailed := Lowered);
    if s.phase == Enabled then s1.(phase := JtcDeactivating) else s1.(disableRequest := Raised)
  }

  function CompleteDeactivation(s: State, result: Switch): State {
    var s1 := s.(disableRequest := Raised);
    if result == Switched then s1
    else
      s1.(deactivateFailed := Raised, restartRequired := Raised, lastFailure := Failure(JtcDeactivateFailed, -1, -1, 0))
  }

  predicate ResetAdmissible(s: State) {
    !s.restartRequired.Raised? && (s.phase == Idle || s.phase == Failed) && s.owner == Nobody
  }

  function AdmitReset(s: State): State {
    s.(resetRequest := Raised, owner := ByReset, reset := s.reset.(ready := Lowered))
  }

  // ---------- The whole system ----------

  datatype EnablePc = EnableOut | EnableWaiting | EnableSwitching | EnableEnding
  datatype DisablePc = DisableOut | DisableSwitching | DisableEnding
  datatype ResetPc = ResetOut | ResetEnding
  datatype WorkerPc = WorkerOut | WorkerSwitching

  /** `clock` is the current time and `lastCycle` the time of the latest cycle.
      `admitted` is an auxiliary variable counting admitted enables;
      `enableSince` is when the latest of them was admitted. */
  datatype Sys = Sys(
    rt: State,
    clock: nat,
    lastCycle: nat,
    enablePc: EnablePc,
    disablePc: DisablePc,
    resetPc: ResetPc,
    workerPc: WorkerPc,
    enableSince: nat,
    admitted: nat)

  datatype Action =
    | Advance(to: nat)
    | Cycle(f: Frame)
    | EnableCall
    | EnableLook
    | EnableSwitched(result: Switch)
    | EnableEnd
    | DisableCall
    | DisableSwitched(result: Switch)
    | DisableEnd
    | ResetCall
    | ResetEnd
    | WorkerTake
    | WorkerSwitched(result: Switch)

  /** The steps each thread may take next.  A refused call changes nothing, so
      calls are always possible while the handler is free; the trajectory
      controller may answer a switch in any of the three ways, and a handler
      may return late or without a result. */
  predicate Can(sys: Sys, c: Config, a: Action) {
    match a
    case Advance(to) => sys.clock <= to <= sys.lastCycle + c.tickGap
    case Cycle(f) => f.now == sys.clock
    case EnableCall => sys.enablePc == EnableOut
    case EnableLook =>
      sys.enablePc == EnableWaiting &&
      (sys.rt.enable.ready.Raised? || sys.rt.hardwareReady.Raised? || sys.clock >= sys.enableSince + c.serviceTimeout)
    case EnableSwitched(_) => sys.enablePc == EnableSwitching
    case EnableEnd => sys.enablePc == EnableEnding
    case DisableCall => sys.disablePc == DisableOut
    case DisableSwitched(_) => sys.disablePc == DisableSwitching
    case DisableEnd => sys.disablePc == DisableEnding
    case ResetCall => sys.resetPc == ResetOut
    case ResetEnd => sys.resetPc == ResetEnding
    case WorkerTake => sys.workerPc == WorkerOut && sys.rt.stopJtc.Raised?
    case WorkerSwitched(_) => sys.workerPc == WorkerSwitching
  }

  predicate Admits(sys: Sys, a: Action) {
    a == EnableCall && EnableAdmissible(sys.rt)
  }

  function Next(sys: Sys, c: Config, a: Action): Sys {
    var s := sys.rt;
    match a
    case Advance(to) => sys.(clock := to)
    case Cycle(f) => sys.(rt := Tick(s, c, f), lastCycle := sys.clock)
    case EnableCall =>
      if EnableAdmissible(s) then
        sys.(rt := AdmitEnable(s), enablePc := EnableWaiting, enableSince := sys.clock, admitted := sys.admitted + 1)
      else sys
    case EnableLook =>
      sys.(enablePc := if s.enable.ready.Raised? || !s.hardwareReady.Raised? then EnableOut else EnableSwitching)
    case EnableSwitched(result) => sys.(rt := CompleteActivation(s, result), enablePc := EnableEnding)
    case EnableEnd => sys.(enablePc := EnableOut)
    case DisableCall =>
      if DisableAdmissible(s) then
        sys.(rt := AdmitDisable(s), disablePc := if s.phase == Enabled then DisableSwitching else DisableEnding)
      else sys
    case DisableSwitched(result) => sys.(rt := CompleteDeactivation(s, result), disablePc := DisableEnding)
    case DisableEnd => sys.(disablePc := DisableOut)
    case ResetCall =>
      if ResetAdmissible(s) then sys.(rt := AdmitReset(s), resetPc := ResetEnding) else sys
    case ResetEnd => sys.(resetPc := ResetOut)
    case WorkerTake => sys.(rt := s.(stopJtc := Lowered), workerPc := WorkerSwitching)
    case WorkerSwitched(result) =>
      sys.(rt := s.(restartRequired := RaisedIf(s.restartRequired.Raised? || result != Switched)),
           workerPc := WorkerOut)
  }

  /** Only a cycle moves the time of the latest cycle, and the clock never runs
      further ahead of it than the gap. */
  lemma ClockStays(sys: Sys, c: Config, a: Action)
    requires Can(sys, c, a) && !a.Cycle? && sys.clock <= sys.lastCycle + c.tickGap
    ensures var n := Next(sys, c, a);
            n.lastCycle == sys.lastCycle && sys.clock <= n.clock <= sys.lastCycle + c.tickGap
  {
    hide Tick;
  }

  /** The state right after the controller was activated. */
  ghost predicate Init(sys: Sys) {
    var s := sys.rt;
    && s.phase == StartupSanitizing && s.owner == Internal
    && !s.enableRequest.Raised? && !s.disableRequest.Raised? && !s.resetRequest.Raised?
    && !s.hardwareReady.Raised? && !s.activateFailed.Raised? && !s.stopJtc.Raised?
    && !s.restartRequired.Raised? && !s.deactivateFailed.Raised?
    && s.enable.history == [] && s.disable.history == [] && s.reset.history == []
    && s.lastFailure == s.primary == NO_FAILURE
    && s.batch == 0 && s.stage == 0 && s.deadline == 0 && !s.preempt.Raised?
    && s.commands == All(0x0000)
    && sys.clock == sys.lastCycle
    && sys.enablePc == EnableOut && sys.disablePc == DisableOut
    && sys.resetPc == ResetOut && sys.workerPc == WorkerOut
    && sys.admitted == 0
  }

  /** A stretch of a run: any states, each one step after the one before. */
  ghost predicate IsPath(c: Config, states: seq<Sys>, acts: seq<Action>) {
    && |states| == |acts| + 1
    && forall i | 0 <= i < |acts| :: Can(states[i], c, acts[i]) && states[i + 1] == Next(states[i], c, acts[i])
  }

  ghost predicate IsRun(c: Config, states: seq<Sys>, acts: seq<Action>) {
    IsPath(c, states, acts) && Init(states[0])
  }
}
