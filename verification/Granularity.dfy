/** What the handlers rely on when they test the shared state and act on it in
    separate steps, and what is lost where the code does not make that one step. */
module Granularity {
  import opened Values
  import opened Cia402
  import opened EnableTick
  import opened Protocol
  import opened Answers
  import opened Quiet

  // ---------- A failed controller switch is remembered too long ----------

  /** Only a cycle that serves JtcActivating takes the failure flag down. */
  lemma OnlyActivatingClearsFlag(s: State, c: Config, f: Frame)
    ensures Tick(s, c, f).activateFailed ==
            if s.phase == JtcActivating && FirstFault(f.states) < 0 then Lowered else s.activateFailed
  {
    TickByPhase(s, c, f);
    hide Tick, Descend, Climb, ResetCycle, FirstFault, FirstNotIn;
    if Walking(s.phase) {
      DescendLeavesFlag(s, c, f);
      DescendLeavesFlag(StartDescent(s, c, s.phase, f.now), c, f);
    } else if Ascending(s.phase) {
      ClimbLeavesFlag(s, c, f);
    } else if Resetting(s.phase) {
      ResetLeavesFlag(s, c, f);
    }
  }

  lemma DescendLeavesFlag(s: State, c: Config, f: Frame)
    requires Walking(s.phase)
    ensures Descend(s, c, f).activateFailed == s.activateFailed
  {
    hide StageDone, FirstUnsettled, FirstFault;
  }

  lemma ClimbLeavesFlag(s: State, c: Config, f: Frame)
    requires Ascending(s.phase)
    ensures Climb(s, c, f).activateFailed == s.activateFailed
  {
    hide FirstFault, FirstInvalid, FirstLate, BatchComplete, EnableCommands, HoldCommands;
  }

  lemma ResetLeavesFlag(s: State, c: Config, f: Frame)
    requires Resetting(s.phase)
    ensures ResetCycle(s, c, f).activateFailed == s.activateFailed
  {
    hide FirstPending, ResetCommands;
  }

  predicate ServesActivation(sys: Sys, a: Action) {
    a.Cycle? && sys.rt.phase == JtcActivating && FirstFault(a.f.states) < 0
  }

  predicate SwitchFails(sys: Sys, a: Action) {
    a.EnableSwitched? && a.result != Switched && sys.rt.phase == JtcActivating
  }

  lemma FlagStep(sys: Sys, c: Config, a: Action)
    ensures var before, after := sys.rt.activateFailed, Next(sys, c, a).rt.activateFailed;
            after == if ServesActivation(sys, a) then Lowered else if SwitchFails(sys, a) then Raised else before
  {
    if a.Cycle? { OnlyActivatingClearsFlag(sys.rt, c, a.f); }
    hide Tick, FirstFault;
  }

  /** The flag outlives the emergency that overtook its own rollback, and any
      number of admissions after that. */
  lemma {:induction false} FlagSurvives(c: Config, states: seq<Sys>, acts: seq<Action>, n: nat)
    requires IsPath(c, states, acts) && n <= |acts|
    requires states[0].rt.activateFailed.Raised?
    requires forall k | 0 <= k < n :: !ServesActivation(states[k], acts[k])
    ensures states[n].rt.activateFailed.Raised?
  {
    hide Next, ServesActivation, SwitchFails;
    if n > 0 {
      FlagSurvives(c, states, acts, n - 1);
      FlagStep(states[n - 1], c, acts[n - 1]);
    }
  }

  lemma RaisedFlagRollsBack(s: State, c: Config, f: Frame)
    requires s.phase == JtcActivating && s.activateFailed.Raised? && FirstFault(f.states) < 0
    ensures var t := Tick(s, c, f);
            t.phase == Rollback && t.primary == Failure(JtcActivateFailed, -1, -1, 0)
  {
  }

  lemma FaultLeavesQuiet(s: State, c: Config, f: Frame)
    requires s.phase == JtcActivating && s.enableRequest.Lowered? && FirstFault(f.states) >= 0
    ensures IsQuiet(Tick(s, c, f))
  {
    TickByPhase(s, c, f);
    hide Tick, FirstFault, QuickStopCommands;
  }

  /** A switch fails (step p), and a cycle reads a fault before the failure is acted
      on (step q).  Then the first cycle in JtcActivating without a fault (step n)
      rolls back for that failure, and it is the enable admitted at step k, long
      after the failed switch, that it rolls back. */
  lemma StaleFlagRollsBack(c: Config, states: seq<Sys>, acts: seq<Action>, p: nat, q: nat, n: nat) returns (k: nat)
    requires IsRun(c, states, acts) && p < q < n < |acts|
    requires SwitchFails(states[p], acts[p])
    requires acts[q].Cycle? && states[q].rt.phase == JtcActivating && FirstFault(acts[q].f.states) >= 0
    requires ServesActivation(states[n], acts[n])
    requires forall j | p < j < n :: !ServesActivation(states[j], acts[j])
    ensures q < k < n && Admits(states[k], acts[k])
    ensures states[n + 1].rt.phase == Rollback
    ensures states[n + 1].rt.primary == Failure(JtcActivateFailed, -1, -1, 0)
  {
    hide Tick, FirstFault, IsQuiet, Admits;
    assert states[p + 1].rt.activateFailed.Raised?;
    FlagSurvives(c, states[p + 1..], acts[p + 1..], n - p - 1);
    RaisedFlagRollsBack(states[n].rt, c, acts[n].f);
    RunInv(c, states, acts, q);
    FaultLeavesQuiet(states[q].rt, c, acts[q].f);
    if forall j | q < j < n :: !Admits(states[j], acts[j]) {
      QuietUntilNextEnable(c, states[q + 1..], acts[q + 1..], n - q - 1);
      assert false by { ActivatingIsNotQuiet(states[n].rt); }
    }
    k :| q < k < n && Admits(states[k], acts[k]);
  }

  lemma ActivatingIsNotQuiet(s: State)
    requires s.phase == JtcActivating
    ensures !IsQuiet(s)
  {
  }

  /** With the flag down at the start, a rollback for a switch failure does follow
      a switch that failed since then. */
  lemma {:induction false} FreshFlagIsOwn(c: Config, states: seq<Sys>, acts: seq<Action>, n: nat) returns (k: nat)
    requires IsPath(c, states, acts) && n <= |acts|
    requires states[0].rt.activateFailed.Lowered? && states[n].rt.activateFailed.Raised?
    ensures k < n && SwitchFails(states[k], acts[k])
  {
    hide Next, ServesActivation;
    FlagStep(states[n - 1], c, acts[n - 1]);
    if SwitchFails(states[n - 1], acts[n - 1]) { return n - 1; }
    k := FreshFlagIsOwn(c, states, acts, n - 1);
  }

  // ---------- Admission in two steps ----------

  /** An enable owns a failed robot: its request waits for Idle. */
  ghost predicate Wedged(sys: Sys) {
    var s := sys.rt;
    && s.phase == Failed && s.owner == ByEnable && s.enableRequest.Raised?
    && s.disableRequest.Lowered? && s.resetRequest.Lowered?
    && sys.disablePc != DisableSwitching && sys.enablePc != EnableSwitching
    && s.hardwareReady.Lowered?
  }

  /** At rest or in a reset, with no other request. */
  predicate OnlyReset(s: State) {
    && (s.phase == Idle || s.phase == Failed || Resetting(s.phase))
    && s.enableRequest.Lowered? && s.disableRequest.Lowered?
    && (s.resetRequest.Raised? ==> s.owner == ByReset && !Resetting(s.phase))
  }

  /** Between the test of an enable and its claim, while no disable is called. */
  ghost predicate InBetween(sys: Sys) {
    OnlyReset(sys.rt) && sys.enablePc == EnableOut && sys.disablePc != DisableSwitching
  }

  lemma RestInBetween(s: State, c: Config, f: Frame)
    requires OnlyReset(s) && !Resetting(s.phase)
    ensures var t := if s.phase == Idle then IdleCycle(s, c, f) else FailedCycle(s, c, f);
            OnlyReset(t) && (t.phase == Failed ==> s.phase == Failed)
  {
    hide FirstFault, FaultTargets, All;
  }

  lemma ResetInBetween(s: State, c: Config, f: Frame)
    requires OnlyReset(s) && Resetting(s.phase)
    ensures var t := ResetCycle(s, c, f); OnlyReset(t) && (t.phase == Failed ==> s.phase == ResetHigh)
  {
    hide FirstPending, ResetCommands, All;
  }

  lemma CycleInBetween(s: State, c: Config, f: Frame)
    requires OnlyReset(s)
    ensures var t := Tick(s, c, f);
            OnlyReset(t) && (t.phase == Failed ==> s.phase == Failed || s.phase == ResetHigh)
  {
    TickByPhase(s, c, f);
    hide Tick, IdleCycle, FailedCycle, ResetCycle;
    if Resetting(s.phase) { ResetInBetween(s, c, f); } else { RestInBetween(s, c, f); }
  }

  lemma StepInBetween(sys: Sys, c: Config, a: Action)
    requires InBetween(sys) && Can(sys, c, a) && !a.EnableCall? && !a.DisableCall?
    ensures var n := Next(sys, c, a);
            InBetween(n) && (n.rt.phase == Failed ==> sys.rt.phase == Failed || (a.Cycle? && sys.rt.phase == ResetHigh))
  {
    hide Tick;
    if a.Cycle? { CycleInBetween(sys.rt, c, a.f); }
  }

  lemma {:induction false} ResetFailedInBetween(c: Config, states: seq<Sys>, acts: seq<Action>, n: nat) returns (k: nat)
    requires IsPath(c, states, acts) && n <= |acts|
    requires InBetween(states[0]) && states[0].rt.phase == Idle
    requires forall i | 0 <= i < n :: !acts[i].EnableCall? && !acts[i].DisableCall?
    ensures InBetween(states[n])
    ensures states[n].rt.phase == Failed ==>
              k < n && acts[k].Cycle? && states[k].rt.phase == ResetHigh && states[k + 1].rt.phase == Failed
  {
    hide Next, Can, InBetween;
    k := 0;
    if n > 0 {
      k := ResetFailedInBetween(c, states, acts, n - 1);
      StepInBetween(states[n - 1], c, acts[n - 1]);
      if states[n - 1].rt.phase != Failed { k := n - 1; }
    }
  }

  /** The test of an enable passes in an idle robot; before it claims ownership a
      reset is called and fails (step k) and lets go.  The late claim leaves the
      robot wedged ... */
  lemma LateClaimWedges(c: Config, states: seq<Sys>, acts: seq<Action>) returns (k: nat)
    requires IsPath(c, states, acts) && EnableAdmissible(states[0].rt) && InBetween(states[0])
    requires forall i | 0 <= i < |acts| :: !acts[i].EnableCall? && !acts[i].DisableCall?
    requires var s := states[|acts|].rt; s.phase == Failed && s.owner == Nobody
    ensures k < |acts| && acts[k].Cycle? && states[k].rt.phase == ResetHigh && states[k + 1].rt.phase == Failed
    ensures var late := states[|acts|]; Wedged(late.(rt := AdmitEnable(late.rt), enablePc := EnableWaiting))
  {
    hide Next, Can;
    k := ResetFailedInBetween(c, states, acts, |acts|);
  }

  /** ... and no cycle and no service ever frees it again. */
  lemma WedgeIsForever(sys: Sys, c: Config, a: Action)
    requires Wedged(sys) && Can(sys, c, a)
    ensures Wedged(Next(sys, c, a))
  {
    hide FirstFault;
  }

  // ---------- Completion in two steps ----------

  /** The stores of a successful completion, without the test before them. */
  function StoreCompletion(s: State): State {
    s.(lastFailure := NO_FAILURE, phase := Enabled, enable := Publish(s.enable, Achieved(Success)), owner := Nobody)
  }

  lemma CompletionIsTestThenStore(s: State)
    requires s.phase == JtcActivating
    ensures CompleteActivation(s, Switched) == StoreCompletion(s)
  {
  }

  /** A cycle that reads a fault between the test and the store has its emergency
      overwritten: the robot is reported enabled over a fault.  The emergency only
      starts again if a later cycle still reads an axis out of operation. */
  lemma SplitCompletionHidesFault(s: State, c: Config, f: Frame, g: Frame)
    requires s.phase == JtcActivating && FirstFault(f.states) >= 0
    ensures Emergency(Tick(s, c, f).phase)
    ensures var t := StoreCompletion(Tick(s, c, f));
            && t.phase == Enabled && t.enable.outcome == Achieved(Success)
            && (Emergency(Tick(t, c, g).phase) <==> FirstNotIn(g.states, OperationEnabled) >= 0)
  {
    hide FirstFault, FirstNotIn, QuickStopCommands;
  }
}
