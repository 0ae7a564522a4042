/** The fault reset: a low cycle on every axis, then the reset bit on exactly the
    axes that were faulted and still are. */
module FaultReset {
  import opened Values
  import opened Cia402
  import opened EnableTick
  import opened Protocol
  import opened Descent

  const PULSE: Word := 0x0080

  /** The reset bit is up only while the reset is in its high phase. */
  ghost predicate PulseContained(s: State) {
    s.phase != ResetHigh ==> PULSE !in s.commands
  }

  /** What one cycle may do about the reset bit. */
  ghost predicate PulseMoves(s: State, f: Frame, t: State) {
    && PulseContained(t)
    && (t.phase == ResetHigh ==>
          || (s.phase == ResetLow && t.commands == All(0x0000) && t.targets == s.targets)
          || (s.phase == ResetHigh && t.commands == ResetCommands(s.targets, f) && t.targets == s.targets &&
              f.now < s.deadline && t.deadline == s.deadline))
    && (t.phase == ResetLow ==> Resting(s.phase) && t.targets == FaultTargets(f) && t.commands == All(0x0000))
    && (Resetting(s.phase) && t.phase != ResetHigh ==> t.commands == All(0x0000))
  }

  lemma PlainCommandsDoNotPulse(batch: Batch, f: Frame)
    ensures PULSE !in DescentCommands(f) && PULSE !in QuickStopCommands(f)
    ensures PULSE !in EnableCommands(batch, f) && PULSE !in HoldCommands(f)
    ensures PULSE !in All(0x0000) && PULSE !in All(0x000F)
  {
  }

  lemma SettledNeedsNoPulse(targets: Marks, f: Frame)
    requires FirstPending(targets, f) < 0
    ensures ResetCommands(targets, f) == All(0x0000)
  {
    forall i | 0 <= i < AXES ensures ResetCommands(targets, f)[i] == 0x0000 {
      assert !ResetPending(targets[i], i, f.states[i]);
    }
  }

  lemma FinishPulses(s: State, f: Frame)
    requires Walking(s.phase)
    ensures var t := Finish(s, f); Resting(t.phase) && t.commands == s.commands
  {
    hide FirstFault, FirstUnsettled;
  }

  lemma DescendPulses(s: State, c: Config, f: Frame)
    requires Walking(s.phase)
    ensures var t := Descend(s, c, f);
            (Down(t.phase) || Resting(t.phase)) && t.commands == DescentCommands(f)
  {
    hide Finish, StageDone, FirstUnsettled, FirstFault;
    var s1 := s.(commands := DescentCommands(f));
    FinishPulses(s1, f);
    FinishPulses(BlameTimeout(s1, f), f);
  }

  lemma ClimbPulses(s: State, c: Config, f: Frame)
    requires Ascending(s.phase)
    ensures var t := Climb(s, c, f);
            !Resetting(t.phase) &&
            (t.commands == s.commands || t.commands == EnableCommands(s.batch, f) || t.commands == HoldCommands(f))
  {
    hide EnableCommands, HoldCommands, FirstFault, ClimbPause, ClimbBatch;
    var s1 := s.(preempt := RaisedIf(s.preempt.Raised? || s.disableRequest.Raised?));
    ClimbPausePulses(s1, c, f);
    ClimbBatchPulses(s1, c, f);
  }

  lemma ClimbPausePulses(s: State, c: Config, f: Frame)
    requires Ascending(s.phase)
    ensures var t := ClimbPause(s, c, f);
            !Resetting(t.phase) && (t.commands == s.commands || t.commands == HoldCommands(f))
  {
    hide HoldCommands;
  }

  lemma ClimbBatchPulses(s: State, c: Config, f: Frame)
    requires Ascending(s.phase)
    ensures var t := ClimbBatch(s, c, f); !Resetting(t.phase) && t.commands == EnableCommands(s.batch, f)
  {
    hide EnableCommands, FirstLate, BatchComplete, FirstInvalid, InvalidFor;
  }

  lemma ResetCyclePulses(s: State, c: Config, f: Frame)
    requires Resetting(s.phase)
    ensures PulseMoves(s, f, ResetCycle(s, c, f))
  {
    PlainCommandsDoNotPulse(s.batch, f);
    if FirstPending(s.targets, f) < 0 { SettledNeedsNoPulse(s.targets, f); }
    hide FirstPending, ResetCommands, All;
  }

  lemma RestPulses(s: State, c: Config, f: Frame)
    requires Resting(s.phase)
    ensures PulseMoves(s, f, if s.phase == Idle then IdleCycle(s, c, f) else FailedCycle(s, c, f))
  {
    PlainCommandsDoNotPulse(s.batch, f);
    hide FirstFault, FaultTargets, All;
  }

  lemma HeldPulses(s: State, c: Config, f: Frame)
    requires Watched(s.phase)
    ensures var t := Tick(s, c, f);
            !Resetting(t.phase) &&
            (t.commands == s.commands || t.commands == All(0x000F) || t.commands == QuickStopCommands(f))
  {
    TickByPhase(s, c, f);
    hide Tick, FirstFault, FirstNotIn, All, QuickStopCommands;
  }

  lemma TickPulses(s: State, c: Config, f: Frame)
    requires PulseContained(s)
    ensures PulseMoves(s, f, Tick(s, c, f))
  {
    PlainCommandsDoNotPulse(s.batch, f);
    TickByPhase(s, c, f);
    hide Tick, Descend, Climb, ResetCycle, IdleCycle, FailedCycle, QuickStopCommands, All;
    if Walking(s.phase) {
      DescendPulses(s, c, f);
      DescendPulses(StartDescent(s, c, s.phase, f.now), c, f);
    } else if Ascending(s.phase) {
      ClimbPulses(s, c, f);
    } else if Resetting(s.phase) {
      ResetCyclePulses(s, c, f);
    } else if Resting(s.phase) {
      RestPulses(s, c, f);
    } else if Watched(s.phase) {
      HeldPulses(s, c, f);
    }
  }

  /** Services neither enter the high phase nor change what a reset works on. */
  lemma ServicesLeaveReset(sys: Sys, c: Config, a: Action)
    requires !a.Cycle?
    ensures var s, t := sys.rt, Next(sys, c, a).rt;
            t.commands == s.commands && t.targets == s.targets &&
            (Resetting(t.phase) <==> Resetting(s.phase)) &&
            (t.phase == ResetHigh <==> s.phase == ResetHigh)
  {
  }

  lemma {:induction false} PulseStaysContained(c: Config, states: seq<Sys>, acts: seq<Action>, n: nat)
    requires IsRun(c, states, acts) && n <= |acts|
    ensures PulseContained(states[n].rt)
  {
    hide Tick;
    if n > 0 {
      PulseStaysContained(c, states, acts, n - 1);
      if acts[n - 1].Cycle? {
        TickPulses(states[n - 1].rt, c, acts[n - 1].f);
      } else {
        ServicesLeaveReset(states[n - 1], c, acts[n - 1]);
      }
    } else {
      PlainCommandsDoNotPulse(0, Frame(0, All(0), seq(AXES, i => NotReady)));
    }
  }

  /** The reset bit appears on an axis only in the high phase of a reset, on an
      axis that is targeted and reads Fault on that very cycle. */
  lemma PulseHitsFaultedTargets(c: Config, states: seq<Sys>, acts: seq<Action>, n: nat, axis: nat)
    requires IsRun(c, states, acts) && n < |acts| && axis < AXES
    requires acts[n].Cycle? && states[n + 1].rt.commands[axis] == PULSE
    ensures states[n].rt.phase == ResetHigh && states[n].rt.targets[axis] && acts[n].f.states[axis] == Fault
  {
    hide Tick;
    PulseStaysContained(c, states, acts, n);
    TickPulses(states[n].rt, c, acts[n].f);
    PlainCommandsDoNotPulse(0, acts[n].f);
  }

  ghost predicate RisingEdge(states: seq<Sys>, k: nat, axis: nat)
    requires k + 1 < |states| && axis < AXES
  {
    states[k].rt.commands[axis] != PULSE && states[k + 1].rt.commands[axis] == PULSE
  }

  /** Before the first pulse of a reset there is a whole cycle of zero words. */
  lemma {:induction false} LowCycleComesFirst(c: Config, states: seq<Sys>, acts: seq<Action>, n: nat) returns (k: nat)
    requires IsRun(c, states, acts) && n <= |acts|
    requires states[n].rt.phase == ResetHigh
    ensures k < n && acts[k].Cycle? && states[k].rt.phase == ResetLow && states[k + 1].rt.commands == All(0x0000)
    ensures forall j | k < j <= n :: states[j].rt.phase == ResetHigh && states[j].rt.targets == states[k].rt.targets
  {
    hide Tick;
    PulseStaysContained(c, states, acts, n - 1);
    if acts[n - 1].Cycle? {
      TickPulses(states[n - 1].rt, c, acts[n - 1].f);
      if states[n - 1].rt.phase == ResetLow { return n - 1; }
    } else {
      ServicesLeaveReset(states[n - 1], c, acts[n - 1]);
    }
    k := LowCycleComesFirst(c, states, acts, n - 1);
  }

  lemma StepInsideReset(sys: Sys, c: Config, a: Action)
    requires Can(sys, c, a) && sys.rt.phase == Next(sys, c, a).rt.phase == ResetHigh
    ensures var t := Next(sys, c, a).rt;
            t.targets == sys.rt.targets &&
            t.commands == if a.Cycle? then ResetCommands(sys.rt.targets, a.f) else sys.rt.commands
  {
    hide Tick;
    if a.Cycle? { TickPulses(sys.rt, c, a.f); } else { ServicesLeaveReset(sys, c, a); }
  }

  /** Two rising edges on one axis within one high phase: in between the drive was
      read out of Fault. */
  lemma EdgesWithinReset(c: Config, states: seq<Sys>, acts: seq<Action>, p: nat, q: nat, axis: nat) returns (r: nat)
    requires IsPath(c, states, acts) && p < q < |acts| && axis < AXES
    requires RisingEdge(states, p, axis) && RisingEdge(states, q, axis)
    requires forall k | p <= k <= q :: states[k].rt.phase == ResetHigh
    ensures p < r < q && acts[r].Cycle? && acts[r].f.states[axis] != Fault
  {
    hide Next, Can;
    StepInsideReset(states[p], c, acts[p]);
    r := p + 1;
    while states[r + 1].rt.commands[axis] == PULSE
      invariant p < r < q
      invariant states[r].rt.commands[axis] == PULSE
      invariant states[r].rt.targets[axis]
      decreases q - r
    {
      StepInsideReset(states[r], c, acts[r]);
      r := r + 1;
    }
    StepInsideReset(states[r], c, acts[r]);
  }

  /** A rising edge is the work of a cycle in the high phase. */
  lemma EdgeIsInHighPhase(c: Config, states: seq<Sys>, acts: seq<Action>, n: nat, axis: nat)
    requires IsRun(c, states, acts) && n < |acts| && axis < AXES && RisingEdge(states, n, axis)
    ensures acts[n].Cycle? && states[n].rt.phase == ResetHigh
  {
    hide Tick;
    if acts[n].Cycle? {
      PulseHitsFaultedTargets(c, states, acts, n, axis);
    } else {
      ServicesLeaveReset(states[n], c, acts[n]);
    }
  }

  /** In any run, between two rising edges on one axis the drive was read out of
      Fault, or a later reset began with its cycle of zero words: no reset pulses
      the same fault twice. */
  lemma EdgesNeedRecovery(c: Config, states: seq<Sys>, acts: seq<Action>, p: nat, q: nat, axis: nat) returns (r: nat)
    requires IsRun(c, states, acts) && p < q < |acts| && axis < AXES
    requires RisingEdge(states, p, axis) && RisingEdge(states, q, axis)
    ensures p < r < q && acts[r].Cycle?
    ensures acts[r].f.states[axis] != Fault ||
            (states[r].rt.phase == ResetLow && states[r + 1].rt.commands == All(0x0000))
  {
    EdgeIsInHighPhase(c, states, acts, p, axis);
    EdgeIsInHighPhase(c, states, acts, q, axis);
    r := LowCycleComesFirst(c, states, acts, q);
    if r < p {
      r := EdgesWithinReset(c, states, acts, p, q, axis);
    }
  }
}
