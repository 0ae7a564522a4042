/** What becomes of a disable that pre-empts an enable: it is taken up, or, on a
    cycle that reads a fault, forgotten without an answer. */
module LostDisable {
  import opened EnableTick
  import opened Protocol
  import opened Answers

  /** The request goes down although nothing is answered and no disable begins. */
  predicate Loses(s: State, t: State) {
    s.disableRequest.Raised? && t.disableRequest.Lowered? && t.disable == s.disable && t.phase != Disabling
  }

  lemma DescendKeepsRequest(s: State, c: Config, f: Frame)
    requires Walking(s.phase)
    ensures Descend(s, c, f).disableRequest == s.disableRequest
  {
    hide StageDone, FirstUnsettled, FirstFault;
  }

  lemma ClimbTakesRequest(s: State, c: Config, f: Frame)
    requires Ascending(s.phase)
    ensures var t := Climb(s, c, f);
            if FirstFault(f.states) >= 0 then
              t.phase == EmergencyQuickStop && t.disable == s.disable && t.disableRequest.Lowered? &&
              t.interrupted == s.owner && t.owner == Internal
            else
              t.disable == s.disable && (t.disableRequest == s.disableRequest || t.phase == Disabling)
  {
    hide FirstFault, FirstInvalid, FirstLate, BatchComplete, EnableCommands, HoldCommands;
  }

  lemma ResetTakesRequest(s: State, c: Config, f: Frame)
    requires Resetting(s.phase)
    ensures var t := ResetCycle(s, c, f);
            t.disable == s.disable && (t.disableRequest == s.disableRequest || t.phase == Disabling)
  {
    hide FirstPending, ResetCommands;
  }

  lemma IdleTakesRequest(s: State, c: Config, f: Frame)
    requires s.phase == Idle
    ensures var t := IdleCycle(s, c, f);
            if t.disable == s.disable then t.disableRequest == s.disableRequest
            else s.disableRequest.Raised? && t.disable == Publish(s.disable, Achieved(AlreadyDisabled))
  {
    PublishChanges(s.disable, Achieved(AlreadyDisabled));
    hide FirstFault, FaultTargets, All, Publish;
  }

  lemma FailedTakesRequest(s: State, c: Config, f: Frame)
    requires s.phase == Failed
    ensures var t := FailedCycle(s, c, f);
            t.disable == s.disable && (t.disableRequest == s.disableRequest || t.phase == Disabling)
  {
    hide FirstFault, FaultTargets, All, Publish;
  }

  lemma RestTakesRequest(s: State, c: Config, f: Frame)
    requires s.phase == Idle || s.phase == Failed
    ensures var t := Tick(s, c, f);
            if t.disable == s.disable then t.disableRequest == s.disableRequest || t.phase == Disabling
            else
              s.phase == Idle && s.disableRequest.Raised? && t.disable == Publish(s.disable, Achieved(AlreadyDisabled))
  {
    TickByPhase(s, c, f);
    hide Tick, IdleCycle, FailedCycle, Publish;
    if s.phase == Idle { IdleTakesRequest(s, c, f); } else { FailedTakesRequest(s, c, f); }
  }

  lemma HeldTakesRequest(s: State, c: Config, f: Frame)
    requires Watched(s.phase)
    ensures var t := Tick(s, c, f);
            t.disable == s.disable && (t.disableRequest == s.disableRequest || t.phase == Disabling)
  {
    TickByPhase(s, c, f);
    hide Tick, FirstFault, FirstNotIn, QuickStopCommands;
  }

  /** Exactly when a cycle loses a disable: it reads a fault while enabling. */
  lemma CycleLosesDisable(s: State, c: Config, f: Frame)
    ensures Loses(s, Tick(s, c, f)) <==> s.disableRequest.Raised? && Ascending(s.phase) && FirstFault(f.states) >= 0
  {
    TickByPhase(s, c, f);
    hide Tick, Climb, Descend, ResetCycle, FirstFault, QuickStopCommands;
    PublishChanges(s.disable, Achieved(AlreadyDisabled));
    if Walking(s.phase) {
      DescendKeepsRequest(s, c, f);
      DescendKeepsRequest(StartDescent(s, c, s.phase, f.now), c, f);
    } else if Ascending(s.phase) {
      ClimbTakesRequest(s, c, f);
    } else if Resetting(s.phase) {
      ResetTakesRequest(s, c, f);
    } else if Watched(s.phase) {
      HeldTakesRequest(s, c, f);
    } else if s.phase != EmergencyQuickStop {
      RestTakesRequest(s, c, f);
    }
  }

  /** Whichever thread takes the step: a disable request only ever goes down by a
      cycle that answers it, starts the disable, or loses it to a fault. */
  lemma RequestGoesDown(sys: Sys, c: Config, a: Action)
    requires Can(sys, c, a) && sys.rt.disableRequest.Raised? && Next(sys, c, a).rt.disableRequest.Lowered?
    ensures a.Cycle?
    ensures var s, t := sys.rt, Next(sys, c, a).rt;
            || t.disable == Publish(s.disable, Achieved(AlreadyDisabled))
            || t.phase == Disabling
            || (Ascending(s.phase) && FirstFault(a.f.states) >= 0 && Loses(s, t))
  {
    var s := sys.rt;
    if a.Cycle? {
      TickByPhase(s, c, a.f);
      CycleLosesDisable(s, c, a.f);
      hide Tick, Climb, Descend, ResetCycle, FirstFault, Loses, QuickStopCommands;
      if Walking(s.phase) {
        DescendKeepsRequest(s, c, a.f);
        DescendKeepsRequest(StartDescent(s, c, s.phase, a.f.now), c, a.f);
      } else if Ascending(s.phase) {
        ClimbTakesRequest(s, c, a.f);
      } else if Resetting(s.phase) {
        ResetTakesRequest(s, c, a.f);
      } else if Watched(s.phase) {
        HeldTakesRequest(s, c, a.f);
      } else if s.phase != EmergencyQuickStop {
        RestTakesRequest(s, c, a.f);
      }
    }
  }

  // ---------- A lost disable is never answered ----------

  /** Nothing in the system remembers a disable. */
  ghost predicate Forgotten(sys: Sys) {
    var s := sys.rt;
    && s.disableRequest.Lowered? && s.owner != ByDisable && sys.disablePc != DisableSwitching
    && s.phase != Disabling && s.phase != JtcDeactivating
    && (Emergency(s.phase) ==> s.interrupted != ByDisable)
    && (Ascending(s.phase) ==> s.preempt.Lowered?)
  }

  predicate AdmitsDisable(sys: Sys, a: Action) {
    a.DisableCall? && DisableAdmissible(sys.rt)
  }

  /** What a cycle keeps when no disable is remembered. */
  ghost predicate StaysForgotten(s: State, t: State) {
    && t.disable == s.disable && t.disableRequest.Lowered? && t.owner != ByDisable
    && t.phase != Disabling && t.phase != JtcDeactivating
    && (Emergency(t.phase) ==> t.interrupted != ByDisable)
    && (Ascending(t.phase) ==> t.preempt.Lowered?)
  }

  lemma FinishForgets(s: State, f: Frame)
    requires Walking(s.phase) && StaysForgotten(s, s)
    ensures StaysForgotten(s, Finish(s, f))
  {
    hide FirstUnsettled, FirstFault;
  }

  lemma DescendForgets(s: State, c: Config, f: Frame)
    requires Walking(s.phase) && StaysForgotten(s, s)
    ensures StaysForgotten(s, Descend(s, c, f))
  {
    hide Finish, StageDone, FirstUnsettled, FirstFault;
    var s1 := s.(commands := DescentCommands(f));
    FinishForgets(s1, f);
    FinishForgets(BlameTimeout(s1, f), f);
  }

  lemma HoldForgets(s: State, c: Config, f: Frame)
    requires Watched(s.phase) && StaysForgotten(s, s)
    ensures StaysForgotten(s, Tick(s, c, f))
  {
    TickByPhase(s, c, f);
    hide Tick, FirstFault, FirstNotIn, QuickStopCommands;
  }

  lemma ClimbForgets(s: State, c: Config, f: Frame)
    requires Ascending(s.phase) && StaysForgotten(s, s)
    ensures StaysForgotten(s, Climb(s, c, f))
  {
    hide FirstFault, FirstInvalid, FirstLate, BatchComplete, EnableCommands, HoldCommands;
  }

  lemma ResetForgets(s: State, c: Config, f: Frame)
    requires Resetting(s.phase) && StaysForgotten(s, s)
    ensures StaysForgotten(s, ResetCycle(s, c, f))
  {
    hide FirstPending, ResetCommands;
  }

  lemma IdleForgets(s: State, c: Config, f: Frame)
    requires s.phase == Idle && StaysForgotten(s, s)
    ensures StaysForgotten(s, IdleCycle(s, c, f))
  {
    hide FirstFault, FaultTargets, All;
  }

  lemma FailedForgets(s: State, c: Config, f: Frame)
    requires s.phase == Failed && StaysForgotten(s, s)
    ensures StaysForgotten(s, FailedCycle(s, c, f))
  {
    hide FirstFault, FaultTargets, All;
  }

  lemma QuickStopForgets(s: State, c: Config, f: Frame)
    requires s.phase == EmergencyQuickStop && StaysForgotten(s, s)
    ensures StaysForgotten(s, QuickStop(s, c, f))
  {
    hide QuickStopCommands;
  }

  lemma CycleForgets(s: State, c: Config, f: Frame)
    requires StaysForgotten(s, s)
    ensures StaysForgotten(s, Tick(s, c, f))
  {
    TickByPhase(s, c, f);
    hide Tick, Climb, Descend, ResetCycle, IdleCycle, FailedCycle, QuickStop, ActivatingCycle, HoldCycle, Watch;
    if Walking(s.phase) {
      DescendForgets(s, c, f);
      DescendForgets(StartDescent(s, c, s.phase, f.now), c, f);
    } else if Ascending(s.phase) {
      ClimbForgets(s, c, f);
    } else if Resetting(s.phase) {
      ResetForgets(s, c, f);
    } else if Watched(s.phase) {
      HoldForgets(s, c, f);
    } else if s.phase == Idle {
      IdleForgets(s, c, f);
    } else if s.phase == Failed {
      FailedForgets(s, c, f);
    } else {
      QuickStopForgets(s, c, f);
    }
  }

  lemma StepForgets(sys: Sys, c: Config, a: Action)
    requires Forgotten(sys) && Can(sys, c, a) && !AdmitsDisable(sys, a)
    ensures Forgotten(Next(sys, c, a)) && Next(sys, c, a).rt.disable == sys.rt.disable
  {
    hide Tick;
    if a.Cycle? { CycleForgets(sys.rt, c, a.f); }
  }

  /** A disable lost at step `n` gets no answer: until another disable is admitted,
      its slot stays as it was.  Only a handler still switching the trajectory
      controller off could ask once more. */
  lemma {:induction false} LostIsNeverAnswered(c: Config, states: seq<Sys>, acts: seq<Action>, n: nat, m: nat)
    requires IsRun(c, states, acts) && n < m <= |acts|
    requires acts[n].Cycle? && Loses(states[n].rt, states[n + 1].rt) && states[n].disablePc != DisableSwitching
    requires forall k | n < k < m :: !AdmitsDisable(states[k], acts[k])
    ensures Forgotten(states[m]) && states[m].rt.disable == states[n].rt.disable
  {
    hide Tick, Climb, Loses, FirstFault;
    if m == n + 1 {
      var s, f := states[n].rt, acts[n].f;
      RunInv(c, states, acts, n);
      CycleLosesDisable(s, c, f);
      TickByPhase(s, c, f);
      ClimbTakesRequest(s, c, f);
    } else {
      LostIsNeverAnswered(c, states, acts, n, m - 1);
      hide Forgotten, AdmitsDisable, Next, Can;
      StepForgets(states[m - 1], c, acts[m - 1]);
    }
  }
}
