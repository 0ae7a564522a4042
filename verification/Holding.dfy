/** An enabled robot is held: every axis keeps the enabling word, and with healthy
    drives nothing but a request ends that. */
module Holding {
  import opened Cia402
  import opened EnableTick
  import opened Protocol
  import opened Answers
  import opened ClosedLoop

  /** What the fault watch of the phase reacts to. */
  predicate Deviates(phase: Phase, states: States) {
    exists i | 0 <= i < AXES :: IsFault(states[i]) || (phase == Enabled && states[i] != OperationEnabled)
  }

  predicate AllHeld(commands: Words) {
    forall i | 0 <= i < AXES :: commands[i] == 0x000F
  }

  lemma WatchFires(s: State, c: Config, f: Frame)
    requires Watched(s.phase)
    ensures var w := Watch(s, c, f);
            if Deviates(s.phase, f.states) then w.phase == EmergencyQuickStop else w == s
  {
    if Deviates(s.phase, f.states) {
      assert FirstFault(f.states) >= 0 || (s.phase == Enabled && FirstNotIn(f.states, OperationEnabled) >= 0);
    }
    hide FirstFault, FirstNotIn;
  }

  /** A cycle starts an emergency exactly if it reads a deviation.  Every other
      cycle leaves the enabling word on all axes, whether it holds the robot or
      takes a disable up, unless it rolls a failed activation back. */
  lemma HeldOrStopped(s: State, c: Config, f: Frame)
    requires Watched(s.phase)
    ensures var t := Tick(s, c, f);
            && (Emergency(t.phase) <==> Deviates(s.phase, f.states))
            && (!Deviates(s.phase, f.states) ==>
                  if s.phase == JtcActivating && s.activateFailed.Raised? then t.phase == Rollback
                  else
                    AllHeld(t.commands) &&
                    t.phase == if s.disableRequest.Raised? && s.phase != JtcActivating then Disabling else s.phase)
  {
    WatchFires(s, c, f);
    TickByPhase(s, c, f);
    hide Tick, Watch, Deviates, QuickStopCommands;
  }

  // ---------- With the drives ----------

  /** All drives are operation enabled and told to stay so. */
  ghost predicate Held(l: Loop) {
    AllHeld(l.sys.rt.commands) && forall i | 0 <= i < AXES :: l.drives[i] == OperationEnabled
  }

  ghost predicate Healthy(l: Loop) {
    forall i | 0 <= i < AXES :: !IsFault(l.drives[i])
  }

  lemma HeldDriveStays(e: DriveState)
    requires DriveStep(OperationEnabled, 0x000F, e) && !IsFault(e)
    ensures e == OperationEnabled
  {
  }

  lemma ServicesLeaveWords(sys: Sys, c: Config, a: Action)
    requires !a.Cycle? && Watched(sys.rt.phase)
    ensures Next(sys, c, a).rt.commands == sys.rt.commands && Watched(Next(sys, c, a).rt.phase)
  {
  }

  /** Whichever thread takes the step: held drives stay held and no emergency
      begins. */
  lemma StepHolds(l: Loop, c: Config, a: Action, n: Loop)
    requires LoopStep(l, c, a, n) && Held(l) && Watched(l.sys.rt.phase) && Healthy(n)
    ensures Watched(n.sys.rt.phase) || n.sys.rt.phase == Disabling || n.sys.rt.phase == Rollback
    ensures n.sys.rt.phase != Rollback ==> Held(n)
  {
    hide Tick, DriveStep, Watched;
    if a.Cycle? {
      assert !Deviates(l.sys.rt.phase, a.f.states);
      HeldOrStopped(l.sys.rt, c, a.f);
    } else {
      ServicesLeaveWords(l.sys, c, a);
      forall i | 0 <= i < AXES ensures n.drives[i] == OperationEnabled {
        if a.Advance? { HeldDriveStays(n.drives[i]); }
      }
    }
    hide Next;
  }

  /** While drives do not fault, an enabled robot stays in operation: it leaves
      these phases for a disable or the rollback of a failed activation only, and
      never for an emergency. */
  lemma {:induction false} HealthyRobotHolds(c: Config, loops: seq<Loop>, acts: seq<Action>, n: nat)
    requires IsLoopPath(c, loops, acts) && n < |acts| && Held(loops[0])
    requires forall k | 0 <= k <= n :: Watched(loops[k].sys.rt.phase)
    requires forall k | 0 <= k <= n + 1 :: Healthy(loops[k])
    ensures Held(loops[n])
    ensures var phase := loops[n + 1].sys.rt.phase; Watched(phase) || phase == Disabling || phase == Rollback
    ensures loops[n + 1].sys.rt.phase != Rollback ==> Held(loops[n + 1])
  {
    hide LoopStep, Held, Healthy;
    if n > 0 { HealthyRobotHolds(c, loops, acts, n - 1); }
    StepHolds(loops[n], c, acts[n], loops[n + 1]);
  }

  /** That is how a climb ends: the cycle that enters JtcActivating leaves every
      drive, which it has read enabled, held. */
  lemma ClimbEndsHeld(l: Loop, c: Config, a: Action, n: Loop)
    requires LoopStep(l, c, a, n) && a.Cycle? && l.sys.rt.phase == Enabling && n.sys.rt.phase == JtcActivating
    ensures Held(n)
  {
    LastBatchHolds(l.sys.rt, c, a.f);
    hide Next;
  }

  lemma LastBatchHolds(s: State, c: Config, f: Frame)
    requires s.phase == Enabling && Tick(s, c, f).phase == JtcActivating
    ensures AllHeld(Tick(s, c, f).commands) && forall i | 0 <= i < AXES :: f.states[i] == OperationEnabled
  {
    TickByPhase(s, c, f);
    assert FirstInvalid(s.batch, f) < 0 && BatchComplete(s.batch, f) && s.batch + 1 == BATCHES by {
      hide FirstInvalid, BatchComplete, FirstLate, FirstFault, EnableCommands, HoldCommands;
    }
    assert Tick(s, c, f).commands == EnableCommands(s.batch, f) by {
      hide FirstInvalid, BatchComplete, FirstLate, FirstFault, EnableCommands, HoldCommands;
    }
    hide Tick;
    forall i | 0 <= i < AXES
      ensures f.states[i] == OperationEnabled && EnableCommand(s.batch, i, f.states[i]) == 0x000F
    {
      assert !InvalidFor(s.batch, i, f.states[i]);
    }
  }
}
