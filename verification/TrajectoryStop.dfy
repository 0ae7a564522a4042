/** What an emergency asks of the trajectory controller, and what follows when a
    controller switch leaves its state in doubt. */
module TrajectoryStop {
  import opened Values
  import opened EnableTick
  import opened Protocol
  import opened Answers

  // ---------- What a cycle asks ----------

  /** A cycle that starts an emergency asks for the trajectory controller to be
      stopped; no other cycle touches that request, and none a required restart or
      a failed deactivation on record. */
  predicate Asks(s: State, t: State) {
    && t.stopJtc == (if Emergency(t.phase) && !Emergency(s.phase) then Raised else s.stopJtc)
    && t.restartRequired == s.restartRequired && t.deactivateFailed == s.deactivateFailed
  }

  lemma DescendAsks(s: State, c: Config, f: Frame)
    requires Walking(s.phase)
    ensures Asks(s, Descend(s, c, f))
  {
    hide StageDone, FirstUnsettled, FirstFault;
  }

  lemma ClimbAsks(s: State, c: Config, f: Frame)
    requires Ascending(s.phase)
    ensures Asks(s, Climb(s, c, f))
  {
    hide FirstFault, ClimbPause, ClimbBatch;
    var s1 := s.(preempt := RaisedIf(s.preempt.Raised? || s.disableRequest.Raised?));
    ClimbPauseAsks(s1, c, f);
    ClimbBatchAsks(s1, c, f);
  }

  lemma ClimbPauseAsks(s: State, c: Config, f: Frame)
    requires Ascending(s.phase)
    ensures Asks(s, ClimbPause(s, c, f))
  {
    hide HoldCommands;
  }

  lemma ClimbBatchAsks(s: State, c: Config, f: Frame)
    requires Ascending(s.phase)
    ensures Asks(s, ClimbBatch(s, c, f))
  {
    hide FirstInvalid, InvalidFor, FirstLate, BatchComplete, EnableCommands, EnableFailed, BatchDone;
    var s1 := s.(commands := EnableCommands(s.batch, f));
    BatchDoneAsks(s1, c, f.now);
    forall failure { EnableFailedAsks(s1, c, failure, f.now); }
  }

  lemma BatchDoneAsks(s: State, c: Config, now: nat)
    requires Ascending(s.phase)
    ensures Asks(s, BatchDone(s, c, now))
  {
  }

  lemma EnableFailedAsks(s: State, c: Config, failure: Failure, now: nat)
    requires Ascending(s.phase)
    ensures Asks(s, EnableFailed(s, c, failure, now))
  {
  }

  lemma HeldAsks(s: State, c: Config, f: Frame)
    requires Watched(s.phase)
    ensures Asks(s, Tick(s, c, f))
  {
    TickByPhase(s, c, f);
    hide Tick, FirstFault, FirstNotIn, QuickStopCommands, All;
  }

  lemma RestAsks(s: State, c: Config, f: Frame)
    ensures s.phase == Idle ==> Asks(s, IdleCycle(s, c, f))
    ensures s.phase == Failed ==> Asks(s, FailedCycle(s, c, f))
  {
    hide FirstFault, FaultTargets, All;
  }

  lemma ResetAsks(s: State, c: Config, f: Frame)
    requires Resetting(s.phase)
    ensures Asks(s, ResetCycle(s, c, f))
  {
    hide FirstPending, ResetCommands, All;
  }

  lemma QuickStopAsks(s: State, c: Config, f: Frame)
    requires s.phase == EmergencyQuickStop
    ensures Asks(s, QuickStop(s, c, f))
  {
    hide QuickStopCommands;
  }

  lemma CycleAsks(s: State, c: Config, f: Frame)
    ensures Asks(s, Tick(s, c, f))
  {
    TickByPhase(s, c, f);
    hide Tick, Climb, Descend, ResetCycle, IdleCycle, FailedCycle, HoldCycle, ActivatingCycle, Watch, QuickStop;
    if Walking(s.phase) {
      DescendAsks(s, c, f);
      DescendAsks(StartDescent(s, c, s.phase, f.now), c, f);
    } else if Ascending(s.phase) {
      ClimbAsks(s, c, f);
    } else if Watched(s.phase) {
      HeldAsks(s, c, f);
    } else if Resetting(s.phase) {
      ResetAsks(s, c, f);
    } else if s.phase == EmergencyQuickStop {
      QuickStopAsks(s, c, f);
    } else {
      RestAsks(s, c, f);
    }
  }

  // ---------- When a restart is required ----------

  /** An activation ends in an unknown state of the controller. */
  predicate IsAmbiguous(a: Action) {
    a.EnableSwitched? && a.result == Ambiguous
  }

  /** The steps after which the state of the trajectory controller is in doubt. */
  predicate LeavesDoubt(a: Action) {
    || IsAmbiguous(a)
    || (a.DisableSwitched? && a.result != Switched)
    || (a.WorkerSwitched? && a.result != Switched)
  }

  lemma StepLeavesDoubt(sys: Sys, c: Config, a: Action)
    ensures Next(sys, c, a).rt.restartRequired.Raised? <==> sys.rt.restartRequired.Raised? || LeavesDoubt(a)
  {
    hide Tick;
    if a.Cycle? { CycleAsks(sys.rt, c, a.f); }
  }

  /** In every run a restart is required exactly if some switch before left doubt:
      an ambiguous activation, or a deactivation, by a disable or by the worker in
      an emergency, that did not succeed. */
  lemma {:induction false} RestartIsRequired(c: Config, states: seq<Sys>, acts: seq<Action>, n: nat)
    requires IsRun(c, states, acts) && n <= |acts|
    ensures states[n].rt.restartRequired.Raised? <==> exists k :: 0 <= k < n && LeavesDoubt(acts[k])
  {
    hide Next, Can;
    if n > 0 {
      RestartIsRequired(c, states, acts, n - 1);
      StepLeavesDoubt(states[n - 1], c, acts[n - 1]);
    }
  }

  /** A call that would admit an enable or a reset. */
  predicate AdmitsPower(sys: Sys, a: Action) {
    Admits(sys, a) || (a.ResetCall? && ResetAdmissible(sys.rt))
  }

  /** From then on no enable and no reset is ever admitted. */
  lemma DoubtLocksOut(c: Config, states: seq<Sys>, acts: seq<Action>, k: nat, n: nat)
    requires IsRun(c, states, acts) && k < n < |acts| && LeavesDoubt(acts[k])
    ensures !AdmitsPower(states[n], acts[n])
  {
    RestartIsRequired(c, states, acts, n);
  }

  // ---------- From the emergency to the stopped controller ----------

  /** The request goes up exactly when an emergency starts or an activation is
      ambiguous, and down exactly when the worker takes it. */
  lemma StepAsks(sys: Sys, c: Config, a: Action)
    requires Can(sys, c, a)
    ensures var n := Next(sys, c, a);
            n.rt.stopJtc.Raised? <==>
              (Emergency(n.rt.phase) && !Emergency(sys.rt.phase)) || IsAmbiguous(a) ||
              (sys.rt.stopJtc.Raised? && a != WorkerTake)
    ensures var n := Next(sys, c, a);
            n.workerPc == WorkerSwitching <==>
              a == WorkerTake || (sys.workerPc == WorkerSwitching && !a.WorkerSwitched?)
  {
    hide Tick;
    if a.Cycle? { CycleAsks(sys.rt, c, a.f); }
  }

  /** The worker ended a switch with this result after step `i`. */
  predicate WorkerEnded(acts: seq<Action>, i: nat, n: nat, succeeded: bool) {
    exists m :: i < m < n <= |acts| && acts[m].WorkerSwitched? && (acts[m].result == Switched) == succeeded
  }

  /** After an emergency began, or an activation was ambiguous, at step `i`: the
      request is up, the worker is switching the controller off, or it has
      succeeded or failed in that. */
  lemma {:induction false} StopIsPursued(c: Config, states: seq<Sys>, acts: seq<Action>, i: nat, n: nat)
    requires IsPath(c, states, acts) && i < n <= |acts|
    requires (Emergency(states[i + 1].rt.phase) && !Emergency(states[i].rt.phase)) || IsAmbiguous(acts[i])
    ensures states[n].rt.stopJtc.Raised? || states[n].workerPc == WorkerSwitching ||
            WorkerEnded(acts, i, n, true) || WorkerEnded(acts, i, n, false)
  {
    hide Next, Can, Emergency;
    StepAsks(states[n - 1], c, acts[n - 1]);
    if n > i + 1 {
      StopIsPursued(c, states, acts, i, n - 1);
      EndedStaysEnded(acts, i, n - 1);
      var a := acts[n - 1];
      if a.WorkerSwitched? {
        assert WorkerEnded(acts, i, n, a.result == Switched);
      }
    }
  }

  lemma EndedStaysEnded(acts: seq<Action>, i: nat, n: nat)
    requires n < |acts|
    ensures forall succeeded :: WorkerEnded(acts, i, n, succeeded) ==> WorkerEnded(acts, i, n + 1, succeeded)
  {
  }

  /** So the controller is being stopped, was stopped, or nothing that needs power
      is admitted any more. */
  lemma EmergencyStopsController(c: Config, states: seq<Sys>, acts: seq<Action>, i: nat, n: nat)
    requires IsRun(c, states, acts) && i < n < |acts|
    requires Emergency(states[i + 1].rt.phase) && !Emergency(states[i].rt.phase)
    ensures states[n].rt.stopJtc.Raised? || states[n].workerPc == WorkerSwitching || WorkerEnded(acts, i, n, true) ||
            !AdmitsPower(states[n], acts[n])
  {
    hide Next, Can, Init, AdmitsPower;
    StopIsPursued(c, states, acts, i, n);
    if WorkerEnded(acts, i, n, false) {
      var m :| i < m < n && acts[m].WorkerSwitched? && (acts[m].result == Switched) == false;
      DoubtLocksOut(c, states, acts, m, n);
    }
  }
}
