/** How long an admitted disable can stay unanswered. */
module DisableTime {
  import opened EnableTick
  import opened Protocol
  import opened Answers
  import opened Climbing
  import opened Descent
  import opened LostDisable
  import opened DisableAnswers

  // ---------- Deadlines of the climb ----------

  /** A deadline of the climb is never further away than the longer of its waits. */
  ghost predicate Near(sys: Sys, c: Config) {
    Ascending(sys.rt.phase) ==> sys.rt.deadline <= sys.lastCycle + c.batch + c.delay
  }

  lemma StepKeepsNear(sys: Sys, c: Config, a: Action)
    requires Can(sys, c, a) && Near(sys, c) && Paced(sys, c)
    ensures Near(Next(sys, c, a), c)
  {
    hide Tick, UpTo, NoFault;
    if a.Cycle? { TickLadder(sys.rt, c, a.f); }
  }

  lemma {:induction false} RunIsNear(c: Config, states: seq<Sys>, acts: seq<Action>, n: nat)
    requires IsRun(c, states, acts) && n <= |acts|
    ensures Near(states[n], c)
  {
    hide Next, Can, Paced;
    if n > 0 {
      RunIsNear(c, states, acts, n - 1);
      RunIsPaced(c, states, acts, n - 1);
      StepKeepsNear(states[n - 1], c, acts[n - 1]);
    }
  }

  // ---------- What is asked of the disable handler ----------

  ghost predicate SwitchingOff(states: seq<Sys>, j: nat, n: nat)
    requires n < |states|
  {
    forall k | j <= k <= n :: states[k].disablePc == DisableSwitching
  }

  /** The trajectory controller is switched off within `switch`. */
  ghost predicate PromptOff(states: seq<Sys>, switch: nat) {
    forall j: nat, n: nat | j <= n < |states| && SwitchingOff(states, j, n) ::
      states[n].clock <= states[j].clock + switch
  }

  // ---------- Every part of a disable is on time ----------

  /** By then the way down has begun. */
  function DescentDue(c: Config, since: nat, switch: nat): nat {
    since + c.batch + c.delay + switch + c.tickGap
  }

  function DisableDue(c: Config, since: nat, switch: nat): nat {
    DescentDue(c, since, switch) + 7 * (c.stage + c.tickGap)
  }

  /** The disable admitted at `since` is still to be answered, and on time: it waits
      to be taken up, for its switch, or for the end of its descent. */
  ghost predicate Waits(c: Config, sys: Sys, since: nat, switch: nat) {
    var s := sys.rt;
    match s.phase
    case Enabling | InterBatchDelay => s.disableRequest.Raised? && s.deadline <= since + c.batch + c.delay
    case ResetLow | ResetHigh => s.disableRequest.Raised? && sys.lastCycle <= since
    case Failed => s.disableRequest.Raised? && s.owner == ByDisable && sys.lastCycle <= since
    case JtcDeactivating =>
      s.owner == ByDisable && sys.lastCycle <= since + switch &&
      (s.disableRequest.Raised? || sys.disablePc == DisableSwitching)
    case Disabling => s.owner == ByDisable && Falls(c, sys, since, switch)
    case EmergencyQuickStop | EmergencyDisable => s.interrupted == ByDisable && Falls(c, sys, since, switch)
    case _ => false
  }

  ghost predicate Falls(c: Config, sys: Sys, since: nat, switch: nat) {
    Falling(sys, c) && DownEnd(sys.rt, c) <= DisableDue(c, since, switch)
  }

  lemma AdmissionWaits(c: Config, sys: Sys, a: Action, switch: nat)
    requires AdmitsDisable(sys, a) && Paced(sys, c) && Near(sys, c) && Inv(sys) && Can(sys, c, a)
    ensures Waits(c, Next(sys, c, a), sys.clock, switch)
  {
  }

  lemma ServiceWaits(c: Config, sys: Sys, a: Action, since: nat, switch: nat)
    requires Waits(c, sys, since, switch) && Can(sys, c, a) && !a.Cycle? && !AdmitsDisable(sys, a)
    ensures Waits(c, Next(sys, c, a), since, switch)
  {
    hide DownEnd;
    if Down(sys.rt.phase) {
      ServicesLeaveDescent(sys, c, a);
      ClockStays(sys, c, a);
      DownEndAlike(c, sys.rt, Next(sys, c, a).rt);
      hide Next;
    }
  }

  lemma DownEndAlike(c: Config, s: State, t: State)
    requires SameDescent(s, t)
    ensures DownEnd(s, c) == DownEnd(t, c)
  {
  }

  /** A descent that this cycle starts is in time. */
  lemma EntryFalls(c: Config, sys: Sys, f: Frame, since: nat, switch: nat)
    requires f.now == sys.clock <= DescentDue(c, since, switch) && !Down(sys.rt.phase)
    requires Down(Tick(sys.rt, c, f).phase)
    ensures Falls(c, Next(sys, c, Cycle(f)), since, switch)
  {
    hide Tick;
    TickEnters(sys.rt, c, f);
    DownEndOnEntry(Tick(sys.rt, c, f), c, f.now);
    hide DownEnd;
  }

  lemma CycleFalls(c: Config, sys: Sys, f: Frame, since: nat, switch: nat)
    requires Falls(c, sys, since, switch) && f.now == sys.clock && Down(Tick(sys.rt, c, f).phase)
    ensures Falls(c, Next(sys, c, Cycle(f)), since, switch)
  {
    hide Tick, DownEnd;
    CycleKeepsDownEnd(sys.rt, c, f, sys.lastCycle);
  }

  // ---------- What a cycle does with a waiting disable ----------

  lemma ClimbHandsOver(s: State, c: Config, f: Frame)
    requires Ascending(s.phase) && s.disableRequest.Raised? && FirstFault(f.states) < 0
    ensures var t := Climb(s, c, f);
            || (t.phase == Disabling && t.owner == ByDisable)
            || (t.phase == Enabling == s.phase && t.batch == s.batch && t.deadline == s.deadline &&
                f.now < s.deadline && t.disableRequest.Raised?)
  {
    hide FirstInvalid, FirstLate, BatchComplete, EnableCommands, HoldCommands;
  }

  lemma ResetHandsOver(s: State, c: Config, f: Frame)
    requires (Resetting(s.phase) || s.phase == Failed) && s.disableRequest.Raised?
    requires s.phase == Failed ==> s.owner == ByDisable
    ensures var t := Tick(s, c, f); t.phase == Disabling && t.owner == ByDisable
  {
    TickByPhase(s, c, f);
    hide Tick, All;
  }

  lemma HeldHandsOver(s: State, c: Config, f: Frame)
    requires s.phase == JtcDeactivating && s.owner == ByDisable
    ensures var t := Tick(s, c, f);
            || (t.phase == Disabling && t.owner == ByDisable)
            || (Emergency(t.phase) && t.interrupted == ByDisable)
            || (t.phase == JtcDeactivating && t.owner == ByDisable && t.disableRequest == s.disableRequest &&
                s.disableRequest.Lowered?)
  {
    TickByPhase(s, c, f);
    hide Tick, FirstFault, All, QuickStopCommands;
  }

  /** A descent of a disable goes on, answers it, or falls back to an emergency on
      its behalf. */
  lemma DescentGoesOn(s: State, c: Config, f: Frame)
    requires s.phase == Disabling && s.owner == ByDisable
    ensures var t := Tick(s, c, f);
            || (t.phase == Disabling && t.owner == ByDisable)
            || (t.phase == EmergencyQuickStop && t.interrupted == ByDisable)
            || Resting(t.phase)
  {
    TickByPhase(s, c, f);
    hide Tick, Finish, StageDone, FirstUnsettled, FirstFault;
    FinishRests(s.(commands := DescentCommands(f)), f);
    FinishRests(StartDescent(s, c, s.phase, f.now).(commands := DescentCommands(f)), f);
  }

  lemma QuickStopGoesOn(s: State, c: Config, f: Frame)
    requires s.phase == EmergencyQuickStop
    ensures var t := Tick(s, c, f); Emergency(t.phase) && t.interrupted == s.interrupted
  {
    TickByPhase(s, c, f);
    hide Tick, QuickStopCommands;
  }

  lemma EmergencyGoesOn(s: State, c: Config, f: Frame)
    requires s.phase == EmergencyDisable
    ensures var t := Tick(s, c, f);
            (t.phase == EmergencyDisable && t.interrupted == s.interrupted) || Resting(t.phase)
  {
    TickByPhase(s, c, f);
    hide Tick, Descend;
    DescendGoesOn(if s.deadline == 0 then StartDescent(s, c, s.phase, f.now) else s, c, f);
  }

  lemma DescendGoesOn(s: State, c: Config, f: Frame)
    requires s.phase == EmergencyDisable
    ensures var t := Descend(s, c, f);
            (t.phase == EmergencyDisable && t.interrupted == s.interrupted) || Resting(t.phase)
  {
    hide Finish, StageDone, FirstUnsettled, FirstFault;
    var s1 := s.(commands := DescentCommands(f));
    FinishRests(s1, f);
    FinishRests(BlameTimeout(s1, f), f);
  }

  /** A cycle that reads no fault while enabling answers the disable, or leaves it
      waiting on time. */
  lemma CycleWaits(c: Config, sys: Sys, f: Frame, since: nat, switch: nat)
    requires Waits(c, sys, since, switch) && Paced(sys, c) && f.now == sys.clock
    requires Ascending(sys.rt.phase) ==> FirstFault(f.states) < 0
    requires sys.rt.phase == JtcDeactivating && sys.rt.disableRequest.Lowered? ==> sys.clock <= since + switch
    ensures Waits(c, Next(sys, c, Cycle(f)), since, switch) || Resting(Tick(sys.rt, c, f).phase)
    ensures Resting(Tick(sys.rt, c, f).phase) ==>
              sys.rt.phase == Disabling || (sys.rt.phase == EmergencyDisable && sys.rt.interrupted == ByDisable)
  {
    hide Tick, Climb, Falls, FirstFault;
    var s := sys.rt;
    if Ascending(s.phase) {
      TickByPhase(s, c, f);
      ClimbHandsOver(s, c, f);
      if Tick(s, c, f).phase == Disabling { EntryFalls(c, sys, f, since, switch); }
    } else if Resetting(s.phase) || s.phase == Failed {
      ResetHandsOver(s, c, f);
      EntryFalls(c, sys, f, since, switch);
    } else if s.phase == JtcDeactivating {
      HeldHandsOver(s, c, f);
      if Down(Tick(s, c, f).phase) { EntryFalls(c, sys, f, since, switch); }
    } else {
      if s.phase == Disabling {
        DescentGoesOn(s, c, f);
      } else if s.phase == EmergencyDisable {
        EmergencyGoesOn(s, c, f);
      } else {
        QuickStopGoesOn(s, c, f);
      }
      if Down(Tick(s, c, f).phase) { CycleFalls(c, sys, f, since, switch); }
    }
  }

  // ---------- From the admission to the answer ----------

  lemma RestIsAnswer(c: Config, sys: Sys, f: Frame)
    requires Resting(Tick(sys.rt, c, f).phase) && RecordFits(sys.rt)
    requires sys.rt.phase == Disabling || (sys.rt.phase == EmergencyDisable && sys.rt.interrupted == ByDisable)
    ensures |Tick(sys.rt, c, f).disable.history| == |sys.rt.disable.history| + 1
  {
    hide Tick, RecordFits;
    if sys.rt.phase == Disabling {
      DisableIsAnswered(sys.rt, c, f);
      hide AllConfirmed, FirstFault;
    } else {
      DescentAnswers(sys.rt, c, f);
    }
  }

  /** The answers to disables are never withdrawn. */
  lemma {:induction false} DisableHistoryGrows(c: Config, states: seq<Sys>, acts: seq<Action>, i: nat, n: nat)
    requires IsRun(c, states, acts) && i <= n <= |acts|
    ensures states[i].rt.disable.history <= states[n].rt.disable.history
  {
    hide Next, Can, RecordFits;
    if i < n {
      DisableHistoryGrows(c, states, acts, i, n - 1);
      RecordAlwaysFits(c, states, acts, n - 1);
      DisableHistorySteps(states[n - 1], c, acts[n - 1]);
    }
  }

  lemma DisableHistorySteps(sys: Sys, c: Config, a: Action)
    requires Can(sys, c, a) && RecordFits(sys.rt)
    ensures sys.rt.disable.history <= Next(sys, c, a).rt.disable.history
  {
    EveryDisableAnswer(sys, c, a);
    hide Next, Can, RecordFits, AllConfirmed, FirstFault;
  }

  /** How long the handler of the latest disable has been switching, if it still is. */
  lemma {:induction false} SwitchIsBounded(c: Config, states: seq<Sys>, acts: seq<Action>, i: nat, n: nat, switch: nat)
    requires IsRun(c, states, acts) && PromptOff(states, switch)
    requires i < n <= |acts| && AdmitsDisable(states[i], acts[i])
    requires forall k | i < k < n :: !AdmitsDisable(states[k], acts[k])
    requires states[n].disablePc == DisableSwitching
    ensures SwitchingOff(states, i + 1, n) && states[n].clock <= states[i].clock + switch
  {
    hide Can, Tick, AdmitsDisable;
    if n > i + 1 {
      StillSwitching(states[n - 1], c, acts[n - 1]);
      SwitchIsBounded(c, states, acts, i, n - 1, switch);
    }
    assert states[i + 1].clock == states[i].clock by { AdmissionKeepsClock(states[i], c, acts[i]); }
  }

  lemma StillSwitching(sys: Sys, c: Config, a: Action)
    requires Next(sys, c, a).disablePc == DisableSwitching && !AdmitsDisable(sys, a)
    ensures sys.disablePc == DisableSwitching
  {
    hide Tick;
  }

  lemma AdmissionKeepsClock(sys: Sys, c: Config, a: Action)
    requires AdmitsDisable(sys, a)
    ensures Next(sys, c, a).clock == sys.clock
  {
  }

  /** No cycle loses the disable to a fault. */
  ghost predicate NotLost(states: seq<Sys>, acts: seq<Action>, i: nat, n: nat)
    requires |states| == |acts| + 1 && n <= |acts|
  {
    forall k | i < k < n && acts[k].Cycle? :: !Loses(states[k].rt, states[k + 1].rt)
  }

  lemma {:induction false} DisableWaits(c: Config, states: seq<Sys>, acts: seq<Action>, i: nat, n: nat, switch: nat)
    requires IsRun(c, states, acts) && PromptOff(states, switch)
    requires i < n <= |acts| && AdmitsDisable(states[i], acts[i]) && NotLost(states, acts, i, n)
    requires forall k | i < k < n :: !AdmitsDisable(states[k], acts[k])
    requires states[n].rt.disable.history == states[i].rt.disable.history
    ensures Waits(c, states[n], states[i].clock, switch)
  {
    hide Next, Can, Init, Waits, AdmitsDisable, Loses, PromptOff, RecordFits, Near, Paced, Inv;
    var since, before, a := states[i].clock, states[n - 1], acts[n - 1];
    RunIsPaced(c, states, acts, n - 1);
    RecordAlwaysFits(c, states, acts, n - 1);
    if n == i + 1 {
      RunIsNear(c, states, acts, i);
      RunInv(c, states, acts, i);
      AdmissionWaits(c, before, a, switch);
    } else {
      DisableHistoryGrows(c, states, acts, i, n - 1);
      DisableHistoryGrows(c, states, acts, n - 1, n);
      DisableWaits(c, states, acts, i, n - 1, switch);
      if a.Cycle? {
        if before.disablePc == DisableSwitching { SwitchIsBounded(c, states, acts, i, n - 1, switch); }
        WaitingCycle(c, before, a, since, switch);
      } else {
        ServiceWaits(c, before, a, since, switch);
      }
    }
  }

  lemma WaitingCycle(c: Config, sys: Sys, a: Action, since: nat, switch: nat)
    requires Can(sys, c, a) && a.Cycle? && Waits(c, sys, since, switch) && Paced(sys, c) && RecordFits(sys.rt)
    requires !Loses(sys.rt, Next(sys, c, a).rt)
    requires sys.disablePc == DisableSwitching ==> sys.clock <= since + switch
    requires Next(sys, c, a).rt.disable.history == sys.rt.disable.history
    ensures Waits(c, Next(sys, c, a), since, switch)
  {
    hide Tick, Falls, FirstFault, RecordFits, Paced, Loses;
    CycleLosesDisable(sys.rt, c, a.f);
    CycleWaits(c, sys, a.f, since, switch);
    assert a == Cycle(a.f);
    if Resting(Tick(sys.rt, c, a.f).phase) { RestIsAnswer(c, sys, a.f); }
  }

  lemma WaitingIsNotLate(c: Config, sys: Sys, since: nat, switch: nat)
    requires Waits(c, sys, since, switch) && Paced(sys, c)
    ensures sys.clock <= DisableDue(c, since, switch)
  {
    if Down(sys.rt.phase) {
      assert (Budgets(sys.rt) - 1) * (c.stage + c.tickGap) >= 0;
      hide Budgets;
    }
  }

  /** Every admitted disable that is not lost to a fault is answered within one
      batch and one pause, a bounded switch and seven stage budgets, whatever the
      drives report and whichever other services are called. */
  lemma DisableIsAnsweredInTime(c: Config, states: seq<Sys>, acts: seq<Action>, i: nat, n: nat, switch: nat)
    requires IsRun(c, states, acts) && PromptOff(states, switch)
    requires i < n <= |acts| && AdmitsDisable(states[i], acts[i]) && NotLost(states, acts, i, n)
    requires forall k | i < k < n :: !AdmitsDisable(states[k], acts[k])
    requires states[n].clock > states[i].clock + c.batch + c.delay + switch + c.tickGap + 7 * (c.stage + c.tickGap)
    ensures var before, after := states[i].rt.disable.history, states[n].rt.disable.history;
            before <= after && |before| < |after|
  {
    hide Next, Can, Waits, Init, Paced;
    DisableHistoryGrows(c, states, acts, i, n);
    if states[n].rt.disable.history == states[i].rt.disable.history {
      DisableWaits(c, states, acts, i, n, switch);
      RunIsPaced(c, states, acts, n);
      WaitingIsNotLate(c, states[n], states[i].clock, switch);
      assert false;
    }
  }
}
