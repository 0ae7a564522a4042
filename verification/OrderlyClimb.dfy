/** Drives at rest that answer in time: enabling then goes through all batches to
    the trajectory controller, and no batch times out or is found invalid. */
module OrderlyClimb {
  import opened Values
  import opened Cia402
  import opened EnableTick
  import opened Protocol
  import opened ClosedLoop

  predicate AtRest(d: DriveState) {
    d == SwitchOnDisabled || d == ReadyToSwitchOn
  }

  /** A drive of the current batch that is not yet enabled leaves the state a
      cycle has read within `response`. */
  ghost predicate Lively(loops: seq<Loop>, acts: seq<Action>, response: nat)
    requires |loops| == |acts| + 1
  {
    forall p, q | 0 <= p < q < |acts| && acts[p].Cycle? && acts[q].Cycle? ::
      acts[q].f.now >= acts[p].f.now + response && loops[p].sys.rt.phase == Enabling ==>
      forall i | 0 <= i < AXES && BatchOf(i) == loops[p].sys.rt.batch ::
        loops[p].drives[i] != OperationEnabled ==> loops[q].drives[i] != loops[p].drives[i]
  }

  /** Nothing in the way: no fault and no disable. */
  ghost predicate Undisturbed(l: Loop) {
    (forall i | 0 <= i < AXES :: !IsFault(l.drives[i])) && l.sys.rt.disableRequest.Lowered?
  }

  /** The path starts where a cycle has just picked up an enable request. */
  ghost predicate FreshClimb(c: Config, loops: seq<Loop>, acts: seq<Action>) {
    && IsLoopPath(c, loops, acts)
    && loops[0].sys.lastCycle <= loops[0].sys.clock <= loops[0].sys.lastCycle + c.tickGap
    && (forall i | 0 <= i < AXES :: AtRest(loops[0].drives[i]))
    && var s := loops[0].sys.rt;
       && s.phase == Enabling && s.batch == 0 && s.deadline == loops[0].sys.lastCycle + c.batch
       && s.preempt.Lowered? && s.commands == All(0x0000)
  }

  /** The drive is in the state its word was written for, or in the next one up. */
  predicate Lifting(d: DriveState, command: Word) {
    || (command == 0x0000 && AtRest(d))
    || (command == 0x0006 && AtRest(d))
    || (command == 0x0007 && (d == ReadyToSwitchOn || d == SwitchedOn))
    || (command == 0x000F && (d == SwitchedOn || d == OperationEnabled))
  }

  lemma LiftingGoesOn(d: DriveState, command: Word, e: DriveState)
    requires Lifting(d, command) && DriveStep(d, command, e) && !IsFault(e)
    ensures Lifting(e, command)
  {
  }

  /** Where each axis is while a batch is current. */
  predicate InPlace(s: State, axis: nat, d: DriveState)
    requires axis < AXES
  {
    var done := BatchOf(axis) < s.batch || (BatchOf(axis) == s.batch && s.phase == InterBatchDelay);
    if done then s.commands[axis] == 0x000F && d == OperationEnabled
    else if BatchOf(axis) == s.batch then Lifting(d, s.commands[axis])
    else s.commands[axis] == 0x0000 && AtRest(d)
  }

  ghost predicate AllInPlace(l: Loop) {
    forall i | 0 <= i < AXES :: InPlace(l.sys.rt, i, l.drives[i])
  }

  lemma AxisStaysInPlace(s: State, axis: nat, d: DriveState, e: DriveState)
    requires axis < AXES && InPlace(s, axis, d) && DriveStep(d, s.commands[axis], e) && !IsFault(e)
    ensures InPlace(s, axis, e)
  {
    if Lifting(d, s.commands[axis]) { LiftingGoesOn(d, s.commands[axis], e); }
  }

  lemma InPlaceIsValid(s: State, axis: nat, f: Frame)
    requires axis < AXES && InPlace(s, axis, f.states[axis]) && s.phase == Enabling
    ensures !InvalidFor(s.batch, axis, f.states[axis])
  {
  }

  /** What an undisturbed cycle of the climb does, in terms of what it read. */
  ghost predicate ClimbMoves(s: State, c: Config, f: Frame, t: State) {
    t.preempt.Lowered? &&
    if s.phase == Enabling then
      t.commands == EnableCommands(s.batch, f) &&
      if BatchComplete(s.batch, f) then
        if s.batch + 1 == BATCHES then t.phase == JtcActivating
        else t.phase == InterBatchDelay && t.batch == s.batch
      else
        f.now < s.deadline ==> t.phase == Enabling && t.batch == s.batch && t.deadline == s.deadline
    else
      t.commands == HoldCommands(f) &&
      if f.now >= s.deadline then t.phase == Enabling && t.batch == s.batch + 1 && t.deadline == f.now + c.batch
      else t.phase == InterBatchDelay && t.batch == s.batch
  }

  lemma CycleMoves(s: State, c: Config, f: Frame)
    requires Ascending(s.phase) && s.disableRequest.Lowered? && s.preempt.Lowered?
    requires forall i | 0 <= i < AXES :: !IsFault(f.states[i]) && InPlace(s, i, f.states[i])
    requires s.phase == InterBatchDelay ==> s.batch + 1 < BATCHES
    requires s.phase == Enabling && !BatchComplete(s.batch, f) ==> f.now < s.deadline
    ensures ClimbMoves(s, c, f, Tick(s, c, f))
  {
    TickByPhase(s, c, f);
    forall i | 0 <= i < AXES && s.phase == Enabling
      ensures !InvalidFor(s.batch, i, f.states[i])
    {
      InPlaceIsValid(s, i, f);
    }
    assert FirstFault(f.states) < 0;
    assert s.phase == Enabling ==> FirstInvalid(s.batch, f) < 0;
    hide Tick, InPlace, InvalidFor, FirstFault, FirstInvalid, FirstLate, BatchComplete, EnableCommands, HoldCommands;
  }

  lemma AxisMovesInPlace(s: State, c: Config, f: Frame, t: State, axis: nat)
    requires axis < AXES && Ascending(s.phase) && Ascending(t.phase) && InPlace(s, axis, f.states[axis])
    requires ClimbMoves(s, c, f, t)
    requires s.phase == Enabling && !BatchComplete(s.batch, f) ==> f.now < s.deadline
    ensures InPlace(t, axis, f.states[axis])
  {
    hide EnableCommands, HoldCommands, BatchOf;
  }

  // ---------- Each axis keeps pace ----------

  /** The time an axis may have taken to be read in a state. */
  function Allowance(d: DriveState, unit: nat): nat {
    match d
    case SwitchOnDisabled => 0
    case ReadyToSwitchOn => unit
    case SwitchedOn => 2 * unit
    case _ => 3 * unit
  }

  /** Cycle `p` of the current batch was the first to read the axis in the state
      its word was last written for, and it came in time. */
  ghost predicate ReadAt(c: Config, loops: seq<Loop>, acts: seq<Action>, response: nat, n: nat, axis: nat, p: nat)
    requires |loops| == |acts| + 1 && n <= |acts| && axis < AXES
  {
    && p < n && acts[p].Cycle? && loops[p].sys.rt.phase == Enabling
    && var s := loops[n].sys.rt; var d := loops[p].drives[axis];
       && loops[p].sys.rt.batch == s.batch && OnTheWayUp(d)
       && s.commands[axis] == EnableCommand(s.batch, axis, d)
       && acts[p].f.now + c.batch <= s.deadline + c.tickGap + Allowance(d, response + c.tickGap)
       && (if d == OperationEnabled then loops[n].drives[axis] == d
           else loops[n].sys.lastCycle < acts[p].f.now + response)
  }

  /** The batch has had no cycle yet, or one has read the axis in time. */
  ghost predicate OnPace(c: Config, loops: seq<Loop>, acts: seq<Action>, response: nat, n: nat, axis: nat)
    requires |loops| == |acts| + 1 && n <= |acts| && axis < AXES
  {
    var sys := loops[n].sys;
    || (sys.rt.commands[axis] == 0x0000 && sys.rt.deadline == sys.lastCycle + c.batch)
    || exists p :: ReadAt(c, loops, acts, response, n, axis, p)
  }

  ghost predicate OnCourse(c: Config, loops: seq<Loop>, acts: seq<Action>, response: nat, n: nat)
    requires |loops| == |acts| + 1 && n <= |acts|
  {
    var sys := loops[n].sys;
    && sys.lastCycle <= sys.clock <= sys.lastCycle + c.tickGap && sys.rt.preempt.Lowered?
    && (sys.rt.phase == InterBatchDelay ==> sys.rt.batch + 1 < BATCHES)
    && AllInPlace(loops[n])
    && (sys.rt.phase == Enabling ==>
          forall i | 0 <= i < AXES && BatchOf(i) == sys.rt.batch :: OnPace(c, loops, acts, response, n, i))
  }

  /** An axis of the current batch that a cycle does not read enabled leaves the
      batch time to go. */
  lemma LateAxisHasTime(c: Config, loops: seq<Loop>, acts: seq<Action>, response: nat, n: nat, axis: nat)
    requires |loops| == |acts| + 1 && Lively(loops, acts, response) && n < |acts| && axis < AXES
    requires 0 < response && 3 * (response + c.tickGap) <= c.batch
    requires OnPace(c, loops, acts, response, n, axis) && InPlace(loops[n].sys.rt, axis, loops[n].drives[axis])
    requires acts[n].Cycle? && acts[n].f.now <= loops[n].sys.lastCycle + c.tickGap
    requires loops[n].sys.rt.phase == Enabling && BatchOf(axis) == loops[n].sys.rt.batch
    requires loops[n].drives[axis] != OperationEnabled
    ensures acts[n].f.now < loops[n].sys.rt.deadline
  {
    hide BatchOf;
    if p: nat :| ReadAt(c, loops, acts, response, n, axis, p) {
      var d, e := loops[p].drives[axis], loops[n].drives[axis];
      if acts[n].f.now >= acts[p].f.now + response {
        assert e != d;
      }
    }
  }

  /** A cycle that goes on with the batch reads every axis of it in time. */
  lemma CycleKeepsPace(c: Config, loops: seq<Loop>, acts: seq<Action>, response: nat, n: nat, axis: nat)
    requires |loops| == |acts| + 1 && Lively(loops, acts, response) && n < |acts| && axis < AXES
    requires 0 < response
    requires OnPace(c, loops, acts, response, n, axis) && InPlace(loops[n].sys.rt, axis, loops[n].drives[axis])
    requires acts[n].Cycle? && acts[n].f.now <= loops[n].sys.lastCycle + c.tickGap
    requires loops[n + 1].sys.lastCycle == acts[n].f.now && loops[n + 1].drives == loops[n].drives
    requires var s, t := loops[n].sys.rt, loops[n + 1].sys.rt;
             && s.phase == Enabling && BatchOf(axis) == s.batch && t.batch == s.batch && t.deadline == s.deadline
             && t.commands[axis] == EnableCommand(s.batch, axis, loops[n].drives[axis])
    ensures OnPace(c, loops, acts, response, n + 1, axis)
  {
    hide BatchOf;
    var e := loops[n].drives[axis];
    if p: nat :| ReadAt(c, loops, acts, response, n, axis, p) {
      var d := loops[p].drives[axis];
      if d == e {
        if e != OperationEnabled {
          assert acts[n].f.now < acts[p].f.now + response;
        }
        assert ReadAt(c, loops, acts, response, n + 1, axis, p);
      } else {
        assert ReadAt(c, loops, acts, response, n + 1, axis, n);
      }
    } else {
      assert ReadAt(c, loops, acts, response, n + 1, axis, n);
    }
  }

  lemma ServiceKeepsPace(c: Config, loops: seq<Loop>, acts: seq<Action>, response: nat, n: nat, axis: nat)
    requires |loops| == |acts| + 1 && n < |acts| && axis < AXES
    requires OnPace(c, loops, acts, response, n, axis)
    requires loops[n + 1].sys.lastCycle == loops[n].sys.lastCycle
    requires loops[n].drives[axis] == OperationEnabled ==>
               loops[n + 1].drives[axis] == OperationEnabled || loops[n].sys.rt.commands[axis] != 0x000F
    requires var s, t := loops[n].sys.rt, loops[n + 1].sys.rt;
             t.batch == s.batch && t.deadline == s.deadline && t.commands == s.commands && BatchOf(axis) == s.batch
    ensures OnPace(c, loops, acts, response, n + 1, axis)
  {
    hide BatchOf;
    if p: nat :| ReadAt(c, loops, acts, response, n, axis, p) {
      assert ReadAt(c, loops, acts, response, n + 1, axis, p);
    }
  }

  lemma EnabledStaysUnderItsWord(e: DriveState)
    requires DriveStep(OperationEnabled, 0x000F, e) && !IsFault(e)
    ensures e == OperationEnabled
  {
  }

  lemma ServiceKeepsClimb(sys: Sys, c: Config, a: Action)
    requires Ascending(sys.rt.phase) && !a.Cycle?
    ensures var s, t := sys.rt, Next(sys, c, a).rt;
            && t.phase == s.phase && t.batch == s.batch && t.deadline == s.deadline && t.commands == s.commands
            && t.preempt == s.preempt && Next(sys, c, a).lastCycle == sys.lastCycle
  {
  }

  lemma ServiceKeepsCourse(c: Config, loops: seq<Loop>, acts: seq<Action>, response: nat, n: nat)
    requires IsLoopPath(c, loops, acts) && n < |acts| && !acts[n].Cycle?
    requires OnCourse(c, loops, acts, response, n) && Ascending(loops[n].sys.rt.phase)
    requires Undisturbed(loops[n + 1])
    ensures OnCourse(c, loops, acts, response, n + 1) && loops[n + 1].sys.rt.phase == loops[n].sys.rt.phase
  {
    var l, a, l' := loops[n], acts[n], loops[n + 1];
    assert LoopStep(l, c, a, l');
    ServiceKeepsClimb(l.sys, c, a);
    assert l.sys.lastCycle <= l'.sys.clock <= l.sys.lastCycle + c.tickGap by { ClockStays(l.sys, c, a); }
    hide Next, Can, InPlace, BatchOf, OnPace, IsLoopPath;
    forall i | 0 <= i < AXES
      ensures InPlace(l'.sys.rt, i, l'.drives[i])
      ensures l.sys.rt.phase == Enabling && BatchOf(i) == l.sys.rt.batch ==>
                OnPace(c, loops, acts, response, n + 1, i)
    {
      AxisServed(l, c, a, l', i);
      if l.sys.rt.phase == Enabling && BatchOf(i) == l.sys.rt.batch {
        ServiceKeepsPace(c, loops, acts, response, n, i);
      }
    }
  }

  lemma AxisServed(l: Loop, c: Config, a: Action, n: Loop, axis: nat)
    requires LoopStep(l, c, a, n) && !a.Cycle? && axis < AXES && !IsFault(n.drives[axis])
    requires InPlace(l.sys.rt, axis, l.drives[axis])
    requires var s, t := l.sys.rt, n.sys.rt; t.phase == s.phase && t.batch == s.batch && t.commands == s.commands
    ensures InPlace(n.sys.rt, axis, n.drives[axis])
    ensures l.drives[axis] == OperationEnabled ==>
              n.drives[axis] == OperationEnabled || l.sys.rt.commands[axis] != 0x000F
  {
    hide Next, Can, DriveStep, InPlace;
    if a.Advance? {
      AxisStaysInPlace(l.sys.rt, axis, l.drives[axis], n.drives[axis]);
      if l.drives[axis] == OperationEnabled && l.sys.rt.commands[axis] == 0x000F {
        EnabledStaysUnderItsWord(n.drives[axis]);
      }
    }
    InPlaceReads(l.sys.rt, n.sys.rt, axis, n.drives[axis]);
  }

  lemma InPlaceReads(s: State, t: State, axis: nat, d: DriveState)
    requires axis < AXES && t.phase == s.phase && t.batch == s.batch && t.commands == s.commands
    ensures InPlace(s, axis, d) <==> InPlace(t, axis, d)
  {
  }

  /** Before its deadline a batch is complete, or there is time left. */
  lemma BatchHasTime(c: Config, loops: seq<Loop>, acts: seq<Action>, response: nat, n: nat)
    requires |loops| == |acts| + 1 && Lively(loops, acts, response) && n < |acts|
    requires 0 < response && 3 * (response + c.tickGap) <= c.batch
    requires OnCourse(c, loops, acts, response, n)
    requires acts[n].Cycle? && acts[n].f.now == loops[n].sys.clock && acts[n].f.states == loops[n].drives
    requires loops[n].sys.rt.phase == Enabling && !BatchComplete(loops[n].sys.rt.batch, acts[n].f)
    ensures acts[n].f.now < loops[n].sys.rt.deadline
  {
    hide OnPace, InPlace, BatchOf, Lively;
    var i :| 0 <= i < AXES && BatchOf(i) == loops[n].sys.rt.batch && acts[n].f.states[i] != OperationEnabled;
    LateAxisHasTime(c, loops, acts, response, n, i);
  }

  lemma CycleKeepsCourse(c: Config, loops: seq<Loop>, acts: seq<Action>, response: nat, n: nat)
    requires IsLoopPath(c, loops, acts) && Lively(loops, acts, response) && n < |acts| && acts[n].Cycle?
    requires 0 < response && 3 * (response + c.tickGap) <= c.batch
    requires OnCourse(c, loops, acts, response, n) && Ascending(loops[n].sys.rt.phase) && Undisturbed(loops[n])
    ensures ClimbMoves(loops[n].sys.rt, c, acts[n].f, loops[n + 1].sys.rt)
    ensures loops[n].sys.rt.phase == Enabling && !BatchComplete(loops[n].sys.rt.batch, acts[n].f) ==>
              acts[n].f.now < loops[n].sys.rt.deadline
    ensures Ascending(loops[n + 1].sys.rt.phase) ==> OnCourse(c, loops, acts, response, n + 1)
  {
    var l, a, l' := loops[n], acts[n], loops[n + 1];
    assert LoopStep(l, c, a, l');
    if l.sys.rt.phase == Enabling && !BatchComplete(l.sys.rt.batch, a.f) {
      BatchHasTime(c, loops, acts, response, n);
    }
    CycleMoves(l.sys.rt, c, a.f);
    hide Tick, InPlace, BatchOf, OnPace, IsLoopPath, EnableCommands, HoldCommands, BatchComplete, Lively;
    if Ascending(l'.sys.rt.phase) {
      forall i | 0 <= i < AXES
        ensures InPlace(l'.sys.rt, i, l'.drives[i])
      {
        AxisMovesInPlace(l.sys.rt, c, a.f, l'.sys.rt, i);
      }
      if l'.sys.rt.phase == Enabling {
        EveryAxisKeepsPace(c, loops, acts, response, n);
      }
    }
  }

  lemma EveryAxisKeepsPace(c: Config, loops: seq<Loop>, acts: seq<Action>, response: nat, n: nat)
    requires |loops| == |acts| + 1 && Lively(loops, acts, response) && n < |acts| && acts[n].Cycle?
    requires 0 < response && OnCourse(c, loops, acts, response, n) && Ascending(loops[n].sys.rt.phase)
    requires acts[n].f.now == loops[n].sys.clock && acts[n].f.states == loops[n].drives == loops[n + 1].drives
    requires loops[n + 1].sys.lastCycle == acts[n].f.now && loops[n + 1].sys.rt.phase == Enabling
    requires ClimbMoves(loops[n].sys.rt, c, acts[n].f, loops[n + 1].sys.rt)
    requires loops[n].sys.rt.phase == Enabling && !BatchComplete(loops[n].sys.rt.batch, acts[n].f) ==>
               acts[n].f.now < loops[n].sys.rt.deadline
    ensures forall i | 0 <= i < AXES && BatchOf(i) == loops[n + 1].sys.rt.batch ::
              OnPace(c, loops, acts, response, n + 1, i)
  {
    hide BatchOf, BatchComplete, ReadAt;
    forall i | 0 <= i < AXES && BatchOf(i) == loops[n + 1].sys.rt.batch
      ensures OnPace(c, loops, acts, response, n + 1, i)
    {
      if loops[n].sys.rt.phase == Enabling {
        CycleKeepsPace(c, loops, acts, response, n, i);
      }
    }
  }

  lemma {:induction false} ClimbStaysOnCourse(c: Config, loops: seq<Loop>, acts: seq<Action>, response: nat, n: nat)
    requires FreshClimb(c, loops, acts) && Lively(loops, acts, response)
    requires 0 < response && 3 * (response + c.tickGap) <= c.batch
    requires n <= |acts| && forall k | 0 <= k <= n :: Ascending(loops[k].sys.rt.phase) && Undisturbed(loops[k])
    ensures OnCourse(c, loops, acts, response, n)
  {
    if n == 0 {
      hide IsLoopPath, BatchOf;
    } else {
      ClimbStaysOnCourse(c, loops, acts, response, n - 1);
      hide OnCourse, Undisturbed, Lively;
      if acts[n - 1].Cycle? {
        CycleKeepsCourse(c, loops, acts, response, n - 1);
      } else {
        ServiceKeepsCourse(c, loops, acts, response, n - 1);
      }
    }
  }

  /** With drives that start at rest and take each step up within `response`, an
      undisturbed climb only ever ends at the trajectory controller, on a cycle
      that reads all axes enabled. */
  lemma ClimbSucceeds(c: Config, loops: seq<Loop>, acts: seq<Action>, response: nat, n: nat)
    requires FreshClimb(c, loops, acts) && Lively(loops, acts, response)
    requires 0 < response && 3 * (response + c.tickGap) <= c.batch
    requires n < |acts| && forall k | 0 <= k <= n :: Ascending(loops[k].sys.rt.phase) && Undisturbed(loops[k])
    requires Undisturbed(loops[n + 1])
    ensures Ascending(loops[n + 1].sys.rt.phase) || loops[n + 1].sys.rt.phase == JtcActivating
    ensures loops[n + 1].sys.rt.phase == JtcActivating ==>
              forall i | 0 <= i < AXES :: loops[n].drives[i] == OperationEnabled
  {
    ClimbStaysOnCourse(c, loops, acts, response, n);
    hide Undisturbed, Lively;
    if acts[n].Cycle? {
      CycleKeepsCourse(c, loops, acts, response, n);
      assert LoopStep(loops[n], c, acts[n], loops[n + 1]);
      if loops[n + 1].sys.rt.phase == JtcActivating {
        hide LoopStep, ReadAt;
        forall i | 0 <= i < AXES
          ensures loops[n].drives[i] == OperationEnabled
        {
          assert InPlace(loops[n].sys.rt, i, loops[n].drives[i]);
        }
      }
    } else {
      ServiceKeepsCourse(c, loops, acts, response, n);
    }
  }
}
