/** What a disable is answered with. */
module DisableAnswers {
  import opened Values
  import opened EnableTick
  import opened Protocol
  import opened Answers
  import opened Descent
  import opened LostDisable
  import opened TrajectoryStop

  // ---------- How each descent ends ----------

  /** Whether a descent that has read all axes at rest may report the robot idle. */
  predicate MayIdle(s: State) {
    match s.phase
    case StartupSanitizing => s.primary.reason == Success
    case Disabling => s.deactivateFailed.Lowered? && s.primary.reason == Success
    case _ => s.restartRequired.Lowered?
  }

  lemma SettledAndClear(states: States)
    ensures AllConfirmed(states) <==> FirstUnsettled(states) < 0 && FirstFault(states) < 0
  {
    if FirstUnsettled(states) < 0 && FirstFault(states) < 0 {
      SettledWithoutFault(states);
    }
  }

  /** The refusal of a disable that does not leave the robot idle. */
  function WhyNotDisabled(s: State, f: Frame): Failure {
    var axis := FirstFault(f.states);
    if axis >= 0 then Failure(FaultRequiresReset, -1, axis, f.words[axis])
    else if s.deactivateFailed.Raised? then Failure(JtcDeactivateFailed, -1, -1, 0)
    else s.primary
  }

  /** The end of a disable: one answer, which tells whether the robot is idle, and
      if not the first faulted axis, else the failed switch, else the failure on
      record. */
  ghost predicate DisableEnds(s: State, f: Frame, t: State) {
    && t.owner == Nobody
    && (t.phase == Idle || t.phase == Failed)
    && (t.phase == Idle <==> AllConfirmed(f.states) && MayIdle(s))
    && t.disable == Publish(s.disable, if t.phase == Idle then Achieved(Success) else Refused(WhyNotDisabled(s, f)))
    && (t.phase == Idle ==> t.lastFailure == NO_FAILURE)
  }

  lemma FinishEndsDisable(s: State, f: Frame)
    requires s.phase == Disabling && FirstUnsettled(f.states) < 0
    ensures DisableEnds(s, f, Finish(s, f))
  {
    SettledAndClear(f.states);
    hide FirstUnsettled, FirstFault, AllConfirmed, Publish;
  }

  lemma DescendEndsDisable(s: State, c: Config, f: Frame)
    requires s.phase == Disabling
    ensures var t := Descend(s, c, f);
            if Resting(t.phase) then DisableEnds(s, f, t) else t.disable == s.disable && t.owner == s.owner
  {
    hide Finish, FirstUnsettled, FirstFault, Publish, AllConfirmed, WhyNotDisabled, MayIdle;
    if StageDone(s.stage, f.states) && s.stage == 2 {
      var s1 := s.(commands := DescentCommands(f));
      FinishEndsDisable(s1, f);
      EndsAlike(s, s1, f, Finish(s1, f));
    }
  }

  lemma EndsAlike(s: State, s1: State, f: Frame, t: State)
    requires s1 == s.(commands := s1.commands) && DisableEnds(s1, f, t)
    ensures DisableEnds(s, f, t)
  {
    hide FirstFault, AllConfirmed;
  }

  /** A cycle that leaves Disabling for Idle or Failed answers the disable so. */
  lemma DisableIsAnswered(s: State, c: Config, f: Frame)
    requires s.phase == Disabling
    ensures var t := Tick(s, c, f);
            if Resting(t.phase) then DisableEnds(s, f, t) else t.disable == s.disable && t.owner == s.owner
  {
    TickByPhase(s, c, f);
    var s1 := if s.deadline == 0 then StartDescent(s, c, s.phase, f.now) else s;
    DescendEndsDisable(s1, c, f);
    hide Tick, Descend, AllConfirmed, FirstFault;
  }

  // ---------- The other descents ----------

  /** Every other descent ends in Idle exactly if it read all axes at rest and
      nothing forbids that, and an emergency answers the disable it interrupted. */
  ghost predicate OtherEnds(s: State, f: Frame, t: State) {
    && t.owner == Nobody
    && (t.phase == Idle || t.phase == Failed)
    && (t.phase == Idle <==> AllConfirmed(f.states) && MayIdle(s))
    && t.disable == (if s.phase == EmergencyDisable && s.interrupted == ByDisable
                     then Publish(s.disable, Refused(s.primary)) else s.disable)
    && t.enable == (if s.phase == Rollback || (s.phase == EmergencyDisable && s.interrupted == ByEnable)
                    then Publish(s.enable, Refused(s.primary)) else s.enable)
  }

  lemma FinishEndsOther(s: State, f: Frame)
    requires Walking(s.phase) && s.phase != Disabling
    requires s.phase == EmergencyDisable || FirstUnsettled(f.states) < 0
    ensures OtherEnds(s, f, Finish(s, f))
  {
    SettledAndClear(f.states);
    hide FirstUnsettled, FirstFault, AllConfirmed, Publish;
  }

  lemma DescendEndsOther(s: State, c: Config, f: Frame)
    requires Walking(s.phase) && s.phase != Disabling
    requires s.phase == EmergencyDisable ==> s.primary.reason != Success
    ensures Resting(Descend(s, c, f).phase) ==> OtherEnds(s, f, Descend(s, c, f))
  {
    hide Finish, FirstUnsettled, FirstFault, AllConfirmed, Publish;
    var s1 := s.(commands := DescentCommands(f));
    if (StageDone(s.stage, f.states) && s.stage == 2) || s.phase == EmergencyDisable {
      FinishEndsOther(s1, f);
    }
  }

  lemma OtherDescentEnds(s: State, c: Config, f: Frame)
    requires Walking(s.phase) && s.phase != Disabling
    requires s.phase == EmergencyDisable ==> s.primary.reason != Success
    ensures Resting(Tick(s, c, f).phase) ==> OtherEnds(s, f, Tick(s, c, f))
  {
    TickByPhase(s, c, f);
    var s1 := if s.deadline == 0 then StartDescent(s, c, s.phase, f.now) else s;
    DescendEndsOther(s1, c, f);
    hide Tick, Descend, AllConfirmed;
  }

  // ---------- The failure on record ----------

  /** Up there no failure is on record; in a rollback or an emergency one is. */
  predicate RecordFits(s: State) {
    && (Ascending(s.phase) || Watched(s.phase) ==> s.primary.reason == Success)
    && (s.phase == Rollback || Emergency(s.phase) ==> s.primary.reason != Success)
  }

  lemma DescendKeepsRecord(s: State, c: Config, f: Frame)
    requires Walking(s.phase) && RecordFits(s)
    ensures RecordFits(Descend(s, c, f))
  {
    hide StageDone, FirstUnsettled, FirstFault;
  }

  lemma ClimbKeepsRecord(s: State, c: Config, f: Frame)
    requires Ascending(s.phase) && RecordFits(s)
    ensures RecordFits(Climb(s, c, f))
  {
    hide FirstFault, ClimbPause, ClimbBatch;
    var s1 := s.(preempt := RaisedIf(s.preempt.Raised? || s.disableRequest.Raised?));
    ClimbPauseKeepsRecord(s1, c, f);
    ClimbBatchKeepsRecord(s1, c, f);
  }

  lemma ClimbPauseKeepsRecord(s: State, c: Config, f: Frame)
    requires Ascending(s.phase) && RecordFits(s)
    ensures RecordFits(ClimbPause(s, c, f))
  {
    hide HoldCommands;
  }

  lemma ClimbBatchKeepsRecord(s: State, c: Config, f: Frame)
    requires Ascending(s.phase) && RecordFits(s)
    ensures RecordFits(ClimbBatch(s, c, f))
  {
    hide FirstInvalid, InvalidFor, FirstLate, BatchComplete, EnableCommands;
  }

  lemma HeldKeepsRecord(s: State, c: Config, f: Frame)
    requires Watched(s.phase) && RecordFits(s)
    ensures RecordFits(Tick(s, c, f))
  {
    TickByPhase(s, c, f);
    hide Tick, FirstFault, FirstNotIn, QuickStopCommands, All;
  }

  lemma RestKeepsRecord(s: State, c: Config, f: Frame)
    ensures s.phase == Idle ==> RecordFits(IdleCycle(s, c, f))
    ensures s.phase == Failed ==> RecordFits(FailedCycle(s, c, f))
    ensures s.phase == EmergencyQuickStop && RecordFits(s) ==> RecordFits(QuickStop(s, c, f))
  {
    hide FirstFault, FaultTargets, QuickStopCommands, All;
  }

  lemma ResetKeepsRecord(s: State, c: Config, f: Frame)
    requires Resetting(s.phase)
    ensures RecordFits(ResetCycle(s, c, f))
  {
    hide FirstPending, ResetCommands, All;
  }

  lemma CycleKeepsRecord(s: State, c: Config, f: Frame)
    requires RecordFits(s)
    ensures RecordFits(Tick(s, c, f))
  {
    TickByPhase(s, c, f);
    RestKeepsRecord(s, c, f);
    hide Tick, Climb, Descend, ResetCycle, IdleCycle, FailedCycle, HoldCycle, ActivatingCycle, Watch, QuickStop;
    if Walking(s.phase) {
      DescendKeepsRecord(s, c, f);
      DescendKeepsRecord(StartDescent(s, c, s.phase, f.now), c, f);
    } else if Ascending(s.phase) {
      ClimbKeepsRecord(s, c, f);
    } else if Watched(s.phase) {
      HeldKeepsRecord(s, c, f);
    } else if Resetting(s.phase) {
      ResetKeepsRecord(s, c, f);
    }
  }

  lemma ServiceKeepsRecord(sys: Sys, c: Config, a: Action)
    requires RecordFits(sys.rt) && !a.Cycle?
    ensures RecordFits(Next(sys, c, a).rt)
  {
    hide Tick;
  }

  lemma {:induction false} RecordAlwaysFits(c: Config, states: seq<Sys>, acts: seq<Action>, n: nat)
    requires IsRun(c, states, acts) && n <= |acts|
    ensures RecordFits(states[n].rt)
  {
    hide Next, Can, RecordFits;
    if n > 0 {
      RecordAlwaysFits(c, states, acts, n - 1);
      if acts[n - 1].Cycle? {
        CycleKeepsRecord(states[n - 1].rt, c, acts[n - 1].f);
        CycleTicks(states[n - 1], c, acts[n - 1]);
      } else {
        ServiceKeepsRecord(states[n - 1], c, acts[n - 1]);
      }
    } else {
      StartupFits(states[0]);
    }
  }

  lemma StartupFits(sys: Sys)
    requires Init(sys)
    ensures RecordFits(sys.rt)
  {
  }

  lemma CycleTicks(sys: Sys, c: Config, a: Action)
    requires a.Cycle?
    ensures Next(sys, c, a).rt == Tick(sys.rt, c, a.f)
  {
  }

  // ---------- From the admission to the answer ----------

  predicate SwitchFailed(a: Action) {
    a.DisableSwitched? && a.result != Switched
  }

  /** After the latest admitted disable, at step `i`, a failed deactivation is on
      record exactly if its switch, or a late one, failed since. */
  lemma {:induction false} FailedSwitchIsRecorded(c: Config, states: seq<Sys>, acts: seq<Action>, i: nat, n: nat)
    requires IsPath(c, states, acts) && i < n <= |acts| && AdmitsDisable(states[i], acts[i])
    requires forall k | i < k < n :: !AdmitsDisable(states[k], acts[k])
    ensures states[n].rt.deactivateFailed.Raised? <==> exists k :: i < k < n && SwitchFailed(acts[k])
  {
    hide Next, Can, AdmitsDisable;
    StepRecordsSwitch(states[n - 1], c, acts[n - 1]);
    if n > i + 1 { FailedSwitchIsRecorded(c, states, acts, i, n - 1); }
  }

  lemma StepRecordsSwitch(sys: Sys, c: Config, a: Action)
    ensures Next(sys, c, a).rt.deactivateFailed.Raised? <==>
            !AdmitsDisable(sys, a) && (sys.rt.deactivateFailed.Raised? || SwitchFailed(a))
    ensures SwitchFailed(a) ==> Next(sys, c, a).rt.lastFailure == Failure(JtcDeactivateFailed, -1, -1, 0)
  {
    hide Tick;
    if a.Cycle? { CycleAsks(sys.rt, c, a.f); }
  }

  /** In every run: the cycle (step n) that ends the disable admitted at step `i`
      answers it once.  It is achieved exactly if all axes were read at rest, no
      switch of the trajectory controller has failed since the admission, and no
      failure is on record; the robot is idle exactly then. */
  lemma DisableVerdict(c: Config, states: seq<Sys>, acts: seq<Action>, i: nat, n: nat)
    requires IsRun(c, states, acts) && i < n < |acts| && AdmitsDisable(states[i], acts[i])
    requires forall k | i < k < n :: !AdmitsDisable(states[k], acts[k])
    requires acts[n].Cycle? && states[n].rt.phase == Disabling && Resting(states[n + 1].rt.phase)
    ensures var s, t := states[n].rt, states[n + 1].rt;
            && t.disable.history == s.disable.history + [t.disable.outcome]
            && (t.disable.outcome == Achieved(Success) <==> t.phase == Idle)
            && (t.phase == Idle <==>
                  AllConfirmed(acts[n].f.states) && s.primary.reason == Success &&
                  !exists k :: i < k < n && SwitchFailed(acts[k]))
            && (t.phase == Failed ==> t.disable.outcome == Refused(WhyNotDisabled(s, acts[n].f)))
  {
    hide Can, Tick, AllConfirmed, WhyNotDisabled, SwitchFailed, AdmitsDisable;
    FailedSwitchIsRecorded(c, states, acts, i, n);
    DisableIsAnswered(states[n].rt, c, acts[n].f);
  }

  /** Whichever thread takes the step: these are all the answers a disable can get. */
  lemma EveryDisableAnswer(sys: Sys, c: Config, a: Action)
    requires Can(sys, c, a) && RecordFits(sys.rt)
    ensures var s, t := sys.rt, Next(sys, c, a).rt;
            if t.disable.history == s.disable.history then !a.Cycle? || t.disable == s.disable
            else
              && a.Cycle?
              && match s.phase
                 case Idle => s.disableRequest.Raised? && t.disable == Publish(s.disable, Achieved(AlreadyDisabled))
                 case Disabling => DisableEnds(s, a.f, t)
                 case EmergencyDisable =>
                   s.interrupted == ByDisable && s.primary.reason != Success &&
                   t.disable == Publish(s.disable, Refused(s.primary))
                 case _ => false
  {
    var s := sys.rt;
    if a.Cycle? {
      TickByPhase(s, c, a.f);
      PublishChanges(s.disable, Achieved(AlreadyDisabled));
      hide Tick, Climb, Descend, ResetCycle, FirstFault, QuickStopCommands, DisableEnds, AllConfirmed;
      if s.phase == Disabling {
        DisableIsAnswered(s, c, a.f);
        EndsWithAnswer(s, a.f, Tick(s, c, a.f));
      } else if Walking(s.phase) {
        DescentAnswers(s, c, a.f);
      } else if Ascending(s.phase) {
        ClimbTakesRequest(s, c, a.f);
      } else if Resetting(s.phase) {
        ResetTakesRequest(s, c, a.f);
      } else if Watched(s.phase) {
        HeldTakesRequest(s, c, a.f);
      } else if s.phase != EmergencyQuickStop {
        RestTakesRequest(s, c, a.f);
      }
    }
  }

  lemma EndsWithAnswer(s: State, f: Frame, t: State)
    ensures DisableEnds(s, f, t) ==> t.disable.history != s.disable.history
  {
    if DisableEnds(s, f, t) {
      assert |t.disable.history| == |s.disable.history| + 1 by { hide AllConfirmed, FirstFault; }
    }
  }

  lemma DescentAnswers(s: State, c: Config, f: Frame)
    requires Walking(s.phase) && s.phase != Disabling && RecordFits(s)
    ensures var t := Tick(s, c, f);
            if s.phase == EmergencyDisable && s.interrupted == ByDisable && Resting(t.phase)
            then t.disable == Publish(s.disable, Refused(s.primary)) else t.disable == s.disable
  {
    TickByPhase(s, c, f);
    hide Tick, Descend;
    var s1 := if s.deadline == 0 then StartDescent(s, c, s.phase, f.now) else s;
    DescendAnswersDisable(s1, c, f);
  }

  lemma DescendAnswersDisable(s: State, c: Config, f: Frame)
    requires Walking(s.phase) && s.phase != Disabling && RecordFits(s)
    ensures var t := Descend(s, c, f);
            if s.phase == EmergencyDisable && s.interrupted == ByDisable && Resting(t.phase)
            then t.disable == Publish(s.disable, Refused(s.primary)) else t.disable == s.disable
  {
    hide StageDone, FirstUnsettled, FirstFault, Publish;
  }

  /** A disable of a failed robot whose record still holds the failure of an
      earlier operation is refused with it, whatever the drives do: nothing clears
      that record before the answer. */
  lemma OldFailureRefusesDisable(c: Config, states: seq<Sys>, acts: seq<Action>, i: nat, n: nat)
    requires IsRun(c, states, acts) && i < n < |acts|
    requires acts[i].Cycle? && states[i].rt.phase == Failed && states[i].rt.disableRequest.Raised?
    requires states[i].rt.primary.reason != Success
    requires forall k | i < k <= n :: Down(states[k].rt.phase)
    ensures var s, t := states[n].rt, states[n + 1].rt;
            && s.primary == states[i].rt.primary
            && (t.disable.history != s.disable.history ==> t.disable.outcome.Refused?)
            && (s.phase == Disabling && Resting(t.phase) ==> t.phase == Failed)
  {
    hide Can, Next, Tick, Init;
    FailedTakesDisable(states[i], c, acts[i]);
    RecordAlwaysFits(c, states, acts, n);
    EntryFailureIsReported(c, states[i + 1..], acts[i + 1..], n - i - 1);
    EveryDisableAnswer(states[n], c, acts[n]);
    if acts[n].Cycle? && states[n].rt.phase == Disabling {
      DisableIsAnswered(states[n].rt, c, acts[n].f);
      CycleTicks(states[n], c, acts[n]);
    } else if states[n].rt.phase == Disabling {
      ServicesLeaveDescent(states[n], c, acts[n]);
    }
  }

  lemma FailedTakesDisable(sys: Sys, c: Config, a: Action)
    requires a.Cycle? && sys.rt.phase == Failed && sys.rt.disableRequest.Raised?
    ensures var t := Next(sys, c, a).rt; t.phase == Disabling && t.primary == sys.rt.primary
  {
    TickByPhase(sys.rt, c, a.f);
    hide Tick, All, FirstFault;
  }

  // ---------- More than one answer ----------

  lemma AnswerLeavesAlone(sys: Sys, c: Config, a: Action)
    requires Can(sys, c, a) && RecordFits(sys.rt)
    requires Next(sys, c, a).rt.disable.history != sys.rt.disable.history
    ensures var n := Next(sys, c, a); a.Cycle? && Resting(n.rt.phase) && n.rt.owner == Nobody
  {
    EveryDisableAnswer(sys, c, a);
    hide Tick, FirstFault, AllConfirmed;
    if sys.rt.phase == Idle {
      IdleAnswerFrees(sys.rt, c, a.f);
    } else if sys.rt.phase == EmergencyDisable {
      OtherDescentEnds(sys.rt, c, a.f);
      EmergencyAnswerRests(sys.rt, c, a.f);
    }
  }

  lemma IdleAnswerFrees(s: State, c: Config, f: Frame)
    requires s.phase == Idle && Tick(s, c, f).disable.history != s.disable.history
    ensures Tick(s, c, f).phase == Idle && Tick(s, c, f).owner == Nobody
  {
    TickByPhase(s, c, f);
    hide Tick, FirstFault, All, FaultTargets;
  }

  lemma EmergencyAnswerRests(s: State, c: Config, f: Frame)
    requires s.phase == EmergencyDisable && RecordFits(s) && Tick(s, c, f).disable.history != s.disable.history
    ensures Resting(Tick(s, c, f).phase)
  {
    DescentAnswers(s, c, f);
    hide Tick;
  }

  /** A disable gets a second answer (step n) only if at the first (step k) its
      request was up again, or its handler was still switching the trajectory
      controller off. */
  lemma SecondAnswerIsLate(c: Config, states: seq<Sys>, acts: seq<Action>, k: nat, n: nat)
    requires IsRun(c, states, acts) && k < n < |acts|
    requires states[k + 1].rt.disable.history != states[k].rt.disable.history
    requires forall j | k < j <= n :: !AdmitsDisable(states[j], acts[j])
    requires states[n + 1].rt.disable.history != states[n].rt.disable.history
    ensures states[k + 1].rt.disableRequest.Raised? || states[k + 1].disablePc == DisableSwitching
  {
    hide Next, Can, Forgotten, AdmitsDisable, RecordFits;
    RecordAlwaysFits(c, states, acts, k);
    AnswerLeavesAlone(states[k], c, acts[k]);
    if states[k + 1].rt.disableRequest.Lowered? && states[k + 1].disablePc != DisableSwitching {
      RestForgets(states[k + 1]);
      StaysForgottenUntil(c, states, acts, k + 1, n);
      StepForgets(states[n], c, acts[n]);
      assert false;
    }
  }

  lemma RestForgets(sys: Sys)
    requires Resting(sys.rt.phase) && sys.rt.owner == Nobody
    requires sys.rt.disableRequest.Lowered? && sys.disablePc != DisableSwitching
    ensures Forgotten(sys)
  {
  }

  lemma {:induction false} StaysForgottenUntil(c: Config, states: seq<Sys>, acts: seq<Action>, k: nat, n: nat)
    requires IsPath(c, states, acts) && k <= n <= |acts| && Forgotten(states[k])
    requires forall j | k <= j < n :: !AdmitsDisable(states[j], acts[j])
    ensures Forgotten(states[n])
  {
    hide Next, Can, Forgotten, AdmitsDisable;
    if k < n {
      StaysForgottenUntil(c, states, acts, k, n - 1);
      StepForgets(states[n - 1], c, acts[n - 1]);
    }
  }

  /** And then it does: a switch that ends late, in a robot that has come to rest
      already, asks again, and an idle robot answers again. */
  lemma LateSwitchIsAnsweredAgain(sys: Sys, c: Config, result: Switch, f: Frame)
    requires sys.rt.phase == Idle && sys.rt.enableRequest.Lowered? && sys.rt.resetRequest.Lowered?
    ensures var late := Next(sys, c, DisableSwitched(result)).rt;
            Tick(late, c, f).disable == Publish(sys.rt.disable, Achieved(AlreadyDisabled))
  {
    TickByPhase(Next(sys, c, DisableSwitched(result)).rt, c, f);
    hide Tick, All;
  }
}
