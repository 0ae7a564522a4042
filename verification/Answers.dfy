/** Each admitted enable is answered exactly once, and only a robot that was
    read fully enabled is ever reported enabled. */
module Answers {
  import opened Values
  import opened EnableTick
  import opened Protocol

  predicate Emergency(phase: Phase) {
    phase == EmergencyQuickStop || phase == EmergencyDisable
  }

  predicate EnablePhase(phase: Phase) {
    phase == Enabling || phase == InterBatchDelay || phase == JtcActivating || phase == Rollback
  }

  /** An admitted enable still waits for its answer. */
  predicate Pending(s: State) {
    s.enableRequest.Raised? || EnablePhase(s.phase) || (Emergency(s.phase) && s.interrupted == ByEnable)
  }

  function Unanswered(s: State): nat {
    if Pending(s) then 1 else 0
  }

  ghost predicate Ownership(s: State) {
    && (s.enableRequest.Raised? ==> s.phase == Idle && s.owner == ByEnable)
    && (EnablePhase(s.phase) ==> s.owner == ByEnable)
    && (s.owner == ByEnable ==> Pending(s))
    && (Emergency(s.phase) ==> s.owner == Internal || s.owner == s.interrupted)
  }

  /** A cycle leaves the enable slot alone, or it publishes one failure and
      thereby answers the pending enable. */
  ghost predicate AnswersOnce(s: State, t: State) {
    if t.enable == s.enable then Pending(t) == Pending(s)
    else
      t.enable == Publish(s.enable, t.enable.outcome) && t.enable.outcome.Refused? && Pending(s) && !Pending(t)
  }

  ghost predicate Fair(s: State, t: State) {
    Ownership(t) && AnswersOnce(s, t)
  }

  lemma PublishChanges(slot: Slot, outcome: Outcome)
    ensures Publish(slot, outcome) != slot
  {
    assert |Publish(slot, outcome).history| == |slot.history| + 1;
  }

  lemma FinishAnswers(s: State, f: Frame)
    requires Ownership(s)
    ensures Fair(s, Finish(s, f))
  {
    PublishChanges(s.enable, Refused(s.primary));
  }

  lemma DescendAnswers(s: State, c: Config, f: Frame)
    requires Ownership(s)
    requires Walking(s.phase)
    ensures Fair(s, Descend(s, c, f))
  {
    hide Finish, StageDone, FirstUnsettled, FirstFault;
    var s1 := s.(commands := DescentCommands(f));
    FinishAnswers(s1, f);
    FinishAnswers(BlameTimeout(s1, f), f);
  }

  lemma EnableFailedAnswers(s: State, c: Config, failure: Failure, now: nat)
    requires Ownership(s) && s.phase == Enabling
    ensures Fair(s, EnableFailed(s, c, failure, now))
  {
    PublishChanges(s.enable, Refused(failure));
  }

  lemma BatchDoneAnswers(s: State, c: Config, now: nat)
    requires Ownership(s) && s.phase == Enabling
    ensures Fair(s, BatchDone(s, c, now))
  {
    PublishChanges(s.enable, Refusal(PreemptedByDisable));
  }

  lemma ClimbBatchAnswers(s: State, c: Config, f: Frame)
    requires Ownership(s) && s.phase == Enabling
    ensures Fair(s, ClimbBatch(s, c, f))
  {
    hide EnableFailed, BatchDone, EnableCommands, FirstInvalid, FirstLate, BatchComplete;
    var s1 := s.(commands := EnableCommands(s.batch, f));
    BatchDoneAnswers(s1, c, f.now);
    forall failure { EnableFailedAnswers(s1, c, failure, f.now); }
  }

  lemma ClimbAnswers(s: State, c: Config, f: Frame)
    requires Ownership(s) && Ascending(s.phase)
    ensures Fair(s, Climb(s, c, f))
  {
    hide ClimbBatch, FirstFault, HoldCommands;
    var s1 := s.(preempt := RaisedIf(s.preempt.Raised? || s.disableRequest.Raised?));
    if s.phase == Enabling { ClimbBatchAnswers(s1, c, f); }
    PublishChanges(s.enable, Climb(s, c, f).enable.outcome);
  }

  lemma ResetCycleAnswers(s: State, c: Config, f: Frame)
    requires Ownership(s) && Resetting(s.phase)
    ensures Fair(s, ResetCycle(s, c, f))
  {
    hide FirstPending, ResetCommands;
  }

  lemma RestAnswers(s: State, c: Config, f: Frame)
    requires Ownership(s) && (s.phase == Idle || s.phase == Failed)
    ensures Fair(s, if s.phase == Idle then IdleCycle(s, c, f) else FailedCycle(s, c, f))
  {
    hide FirstFault;
  }

  lemma HeldAnswers(s: State, c: Config, f: Frame)
    requires Ownership(s) && Watched(s.phase)
    ensures Fair(s, Tick(s, c, f))
  {
    TickByPhase(s, c, f);
    hide Tick, FirstFault, FirstNotIn, QuickStopCommands;
  }

  /** Every cycle keeps the ownership discipline and answers at most once. */
  lemma TickAnswers(s: State, c: Config, f: Frame)
    requires Ownership(s)
    ensures Fair(s, Tick(s, c, f))
  {
    TickByPhase(s, c, f);
    hide Tick, Descend, Climb, ResetCycle, IdleCycle, FailedCycle, HoldCycle, Watch;
    if Walking(s.phase) {
      DescendAnswers(s, c, f);
      DescendAnswers(StartDescent(s, c, s.phase, f.now), c, f);
    } else if Ascending(s.phase) {
      ClimbAnswers(s, c, f);
    } else if Resetting(s.phase) {
      ResetCycleAnswers(s, c, f);
    } else if Watched(s.phase) {
      HeldAnswers(s, c, f);
    } else if s.phase != EmergencyQuickStop {
      RestAnswers(s, c, f);
    }
  }

  // ---------- Over whole runs ----------

  /** While an enable handler is at work, the slot is ready exactly when its own
      enable has been answered, and then holds that answer. */
  ghost predicate Inv(sys: Sys) {
    var s := sys.rt;
    && Ownership(s)
    && sys.admitted == |s.enable.history| + Unanswered(s)
    && (sys.enablePc != EnableOut ==> (s.enable.ready.Raised? <==> !Pending(s)))
    && (sys.enablePc != EnableOut && s.enable.ready.Raised? ==>
          s.enable.history != [] && s.enable.outcome == s.enable.history[|s.enable.history| - 1])
  }

  lemma CycleKeepsInv(sys: Sys, c: Config, f: Frame)
    requires Inv(sys)
    ensures Inv(Next(sys, c, Cycle(f)))
    ensures sys.rt.enable.history <= Next(sys, c, Cycle(f)).rt.enable.history
  {
    TickAnswers(sys.rt, c, f);
    hide Tick, Pending, Ownership;
  }

  lemma EnableKeepsInv(sys: Sys, c: Config, a: Action)
    requires Inv(sys) && Can(sys, c, a) && (a.EnableCall? || a.EnableLook? || a.EnableSwitched? || a.EnableEnd?)
    ensures Inv(Next(sys, c, a))
    ensures sys.rt.enable.history <= Next(sys, c, a).rt.enable.history
  {
    hide Tick;
  }

  lemma OthersKeepInv(sys: Sys, c: Config, a: Action)
    requires Inv(sys) && Can(sys, c, a) && !a.Cycle?
    requires !(a.EnableCall? || a.EnableLook? || a.EnableSwitched? || a.EnableEnd?)
    ensures Inv(Next(sys, c, a)) && Next(sys, c, a).rt.enable == sys.rt.enable
  {
    hide Tick;
  }

  lemma StepKeepsInv(sys: Sys, c: Config, a: Action)
    requires Inv(sys) && Can(sys, c, a)
    ensures Inv(Next(sys, c, a))
    ensures sys.rt.enable.history <= Next(sys, c, a).rt.enable.history
  {
    hide Next, Inv, Can;
    if a.Cycle? {
      CycleKeepsInv(sys, c, a.f);
      assert a == Cycle(a.f);
    } else if a.EnableCall? || a.EnableLook? || a.EnableSwitched? || a.EnableEnd? {
      EnableKeepsInv(sys, c, a);
    } else {
      OthersKeepInv(sys, c, a);
    }
  }

  lemma {:induction false} RunInv(c: Config, states: seq<Sys>, acts: seq<Action>, n: nat)
    requires IsRun(c, states, acts) && n <= |acts|
    ensures Inv(states[n])
  {
    hide Next, Can;
    if n > 0 {
      RunInv(c, states, acts, n - 1);
      StepKeepsInv(states[n - 1], c, acts[n - 1]);
    }
  }

  /** Answers are only ever added, and the count of admissions only moves when
      an enable is admitted. */
  lemma {:induction false} HistoryGrows(c: Config, states: seq<Sys>, acts: seq<Action>, i: nat, j: nat)
    requires IsRun(c, states, acts) && i <= j <= |acts|
    ensures states[i].rt.enable.history <= states[j].rt.enable.history
    ensures (forall k | i <= k < j :: !Admits(states[k], acts[k])) ==> states[j].admitted == states[i].admitted
  {
    hide Next, Can, Init, Inv, Admits;
    if i < j {
      HistoryGrows(c, states, acts, i, j - 1);
      RunInv(c, states, acts, j - 1);
      StepKeepsInv(states[j - 1], c, acts[j - 1]);
      OnlyAdmissionsCount(states[j - 1], c, acts[j - 1]);
    }
  }

  lemma OnlyAdmissionsCount(sys: Sys, c: Config, a: Action)
    ensures Next(sys, c, a).admitted == if Admits(sys, a) then sys.admitted + 1 else sys.admitted
  {
    hide Tick;
  }

  /** Between one admitted enable and the next, exactly one answer is published. */
  lemma AnsweredExactlyOnce(c: Config, states: seq<Sys>, acts: seq<Action>, i: nat, j: nat)
    requires IsRun(c, states, acts) && i < j < |acts|
    requires Admits(states[i], acts[i]) && Admits(states[j], acts[j])
    requires forall k | i < k < j :: !Admits(states[k], acts[k])
    ensures var before, after := states[i].rt.enable.history, states[j].rt.enable.history;
            |after| == |before| + 1 && before <= after
  {
    hide Tick;
    RunInv(c, states, acts, i);
    RunInv(c, states, acts, j);
    HistoryGrows(c, states, acts, i, j);
    HistoryGrows(c, states, acts, i + 1, j);
  }

  /** The answer a handler returns from the slot belongs to its own enable: the
      latest one admitted. */
  lemma ReplyIsOwn(c: Config, states: seq<Sys>, acts: seq<Action>, n: nat)
    requires IsRun(c, states, acts) && n <= |acts|
    requires states[n].enablePc != EnableOut && states[n].rt.enable.ready.Raised?
    ensures var sys := states[n];
            |sys.rt.enable.history| == sys.admitted > 0 &&
            sys.rt.enable.outcome == sys.rt.enable.history[sys.admitted - 1]
  {
    RunInv(c, states, acts, n);
  }
}
