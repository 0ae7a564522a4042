/** Drives that answer in time: the descent then walks through its three stages
    in order, never needs the emergency fallback, and ends with every axis that
    is not faulted confirmed at rest. */
module OrderlyDescent {
  import opened Cia402
  import opened EnableTick
  import opened Protocol
  import opened Descent
  import opened ClosedLoop

  /** A drive that has a way to go leaves its state within `response`. */
  ghost predicate Responsive(loops: seq<Loop>, acts: seq<Action>, response: nat)
    requires |loops| == |acts| + 1
  {
    forall p, q | 0 <= p < q < |acts| && acts[p].Cycle? && acts[q].Cycle? ::
      acts[q].f.now >= acts[p].f.now + response ==> Answered(loops[p].drives, loops[q].drives)
  }

  ghost predicate Answered(before: States, after: States) {
    forall i | 0 <= i < AXES :: !Settled(i, before[i]) ==> after[i] != before[i]
  }

  predicate Normal(phase: Phase) {
    phase == StartupSanitizing || phase == Disabling || phase == Rollback
  }

  /** The stage before this one has been read complete. */
  predicate StageReached(stage: DescentStage, drives: States) {
    stage == 0 || (OperationEnabled !in drives && (stage == 2 ==> SwitchedOn !in drives))
  }

  /** The path starts with the first cycle after its stage was entered. */
  ghost predicate FreshDescent(c: Config, loops: seq<Loop>, acts: seq<Action>) {
    && IsLoopPath(c, loops, acts)
    && |acts| > 0 && acts[0].Cycle?
    && var s := loops[0].sys.rt;
       && Normal(s.phase) && s.enableRequest.Lowered? && s.deadline > 0
       && StageReached(s.stage, loops[0].drives)
       && acts[0].f.now + c.stage <= s.deadline + c.tickGap
  }

  /** How a cycle of a normal descent goes on, in terms of what was read. */
  lemma WalkStep(s: State, c: Config, f: Frame)
    requires Normal(s.phase) && s.deadline > 0
    ensures var t := Tick(s, c, f);
            if StageDone(s.stage, f.states) then
              if s.stage < 2 then t.phase == s.phase && t.stage == s.stage + 1 && t.deadline == f.now + c.stage
              else Resting(t.phase)
            else if f.now >= s.deadline then t.phase == EmergencyQuickStop
            else t.phase == s.phase && t.stage == s.stage && t.deadline == s.deadline
  {
    TickByPhase(s, c, f);
    hide Tick, Finish, StageDone, FirstUnsettled, FirstFault;
    FinishRests(s.(commands := DescentCommands(f)), f);
  }

  /** An unfinished stage has an axis still in the state it had when the stage was
      reached, although it had a way to go. */
  lemma UnfinishedStageHasLaggard(stage: DescentStage, before: States, after: States)
    requires StageReached(stage, before) && AllFall(before, after) && !StageDone(stage, after)
    ensures !Answered(before, after)
  {
    if stage < 2 {
      var i :| 0 <= i < AXES && (after[i] == OperationEnabled || (stage == 1 && after[i] == SwitchedOn));
      assert FallsTo(before[i], after[i]) && before[i] == after[i];
      assert !Settled(i, before[i]);
    } else {
      var i := FirstUnsettled(after);
      assert FallsTo(before[i], after[i]) && !Settled(i, after[i]);
      assert before[i] == after[i];
    }
  }

  lemma DownAdmitsNothing(sys: Sys, a: Action)
    requires Down(sys.rt.phase)
    ensures !Admits(sys, a)
  {
  }

  lemma DrivesOnlyFall(c: Config, loops: seq<Loop>, acts: seq<Action>, p: nat, n: nat)
    requires FreshDescent(c, loops, acts) && p <= n <= |acts| && 0 < n
    requires forall k | 0 <= k <= n :: Down(loops[k].sys.rt.phase)
    ensures AllFall(loops[p].drives, loops[n].drives)
  {
    hide LoopStep, AllFall, Admits;
    CycleCalms(loops[0], c, acts[0], loops[1]);
    forall k | 0 <= k < n ensures !Admits(loops[k].sys, acts[k]) { DownAdmitsNothing(loops[k].sys, acts[k]); }
    PowerOnlyFalls(c, loops[1..], acts[1..], if p == 0 then 0 else p - 1, n - 1);
  }

  /** The stages come in order: at every point the phase is still the one the
      descent began with, and `p` is a cycle at which the current stage had just
      been reached. */
  lemma {:induction false} StagesInOrder(c: Config, loops: seq<Loop>, acts: seq<Action>, response: nat, n: nat)
    returns (p: nat)
    requires FreshDescent(c, loops, acts) && Responsive(loops, acts, response)
    requires 0 < response && response + c.tickGap <= c.stage
    requires n <= |acts| && forall k | 0 <= k <= n :: Down(loops[k].sys.rt.phase)
    ensures var s := loops[n].sys.rt;
            && s.phase == loops[0].sys.rt.phase && s.deadline > 0
            && p < |acts| && p <= n && (p == n ==> n == 0)
            && acts[p].Cycle? && acts[p].f.now + c.stage <= s.deadline + c.tickGap
            && StageReached(s.stage, loops[p].drives)
  {
    hide Tick, Next, Can, StageDone, Answered, AllFall, StageReached, Responsive;
    if n == 0 {
      assert StageReached(loops[0].sys.rt.stage, loops[0].drives) by { FreshIsReached(c, loops, acts); }
      return 0;
    }
    p := StagesInOrder(c, loops, acts, response, n - 1);
    var before, a := loops[n - 1], acts[n - 1];
    assert LoopStep(before, c, a, loops[n]);
    WalkLoop(before, c, a, loops[n]);
    hide LoopStep, Normal;
    if a.Cycle? {
      if StageDone(before.sys.rt.stage, before.drives) {
        StageDoneReachesNext(before.sys.rt.stage, before.drives);
        p := n - 1;
      } else if a.f.now >= before.sys.rt.deadline {
        LaggardsHaveAnswered(c, loops, acts, response, p, n - 1);
      }
    }
  }

  /** Once the response time has passed since its stage was reached, the stage is done. */
  lemma LaggardsHaveAnswered(c: Config, loops: seq<Loop>, acts: seq<Action>, response: nat, p: nat, n: nat)
    requires FreshDescent(c, loops, acts) && Responsive(loops, acts, response) && 0 < response
    requires p < n < |acts| && acts[p].Cycle? && acts[n].Cycle?
    requires forall k | 0 <= k <= n :: Down(loops[k].sys.rt.phase)
    requires StageReached(loops[n].sys.rt.stage, loops[p].drives)
    requires acts[n].f.now >= acts[p].f.now + response
    ensures StageDone(loops[n].sys.rt.stage, loops[n].drives)
  {
    hide StageDone, StageReached, AllFall, Answered;
    var stage := loops[n].sys.rt.stage;
    DrivesOnlyFall(c, loops, acts, p, n);
    if !StageDone(stage, loops[n].drives) {
      UnfinishedStageHasLaggard(stage, loops[p].drives, loops[n].drives);
    }
  }

  /** The same for every step of a path of drives and manager. */
  lemma WalkLoop(l: Loop, c: Config, a: Action, n: Loop)
    requires LoopStep(l, c, a, n) && Normal(l.sys.rt.phase) && l.sys.rt.deadline > 0
    ensures var s, t := l.sys.rt, n.sys.rt;
            if !a.Cycle? then t.phase == s.phase && t.stage == s.stage && t.deadline == s.deadline
            else if StageDone(s.stage, l.drives) then
              if s.stage < 2 then t.phase == s.phase && t.stage == s.stage + 1 && t.deadline == a.f.now + c.stage
              else Resting(t.phase)
            else if a.f.now >= s.deadline then t.phase == EmergencyQuickStop
            else t.phase == s.phase && t.stage == s.stage && t.deadline == s.deadline
  {
    hide Tick, StageDone;
    if a.Cycle? {
      WalkStep(l.sys.rt, c, a.f);
    } else {
      ServicesLeaveDescent(l.sys, c, a);
    }
  }

  lemma FreshIsReached(c: Config, loops: seq<Loop>, acts: seq<Action>)
    requires FreshDescent(c, loops, acts)
    ensures StageReached(loops[0].sys.rt.stage, loops[0].drives)
  {
  }

  lemma StageDoneReachesNext(stage: DescentStage, drives: States)
    requires StageDone(stage, drives) && stage < 2
    ensures StageReached(stage + 1, drives)
  {
  }

  /** With drives that answer one cycle gap before the stage timeout, a descent
      never falls back to the emergency stop, and the cycle that ends it has read
      every axis faulted or at rest. */
  lemma DescentIsOrderly(c: Config, loops: seq<Loop>, acts: seq<Action>, response: nat, n: nat)
    requires FreshDescent(c, loops, acts) && Responsive(loops, acts, response)
    requires 0 < response && response + c.tickGap <= c.stage
    requires n < |acts| && forall k | 0 <= k <= n :: Down(loops[k].sys.rt.phase)
    ensures loops[n + 1].sys.rt.phase != EmergencyQuickStop
    ensures Down(loops[n + 1].sys.rt.phase) ==> loops[n + 1].sys.rt.phase == loops[0].sys.rt.phase
    ensures !Down(loops[n + 1].sys.rt.phase) ==>
              Resting(loops[n + 1].sys.rt.phase) &&
              forall i | 0 <= i < AXES :: Settled(i, loops[n].drives[i])
  {
    hide Tick, Answered, StageReached;
    if Down(loops[n + 1].sys.rt.phase) {
      var p := StagesInOrder(c, loops, acts, response, n + 1);
    } else {
      var p := StagesInOrder(c, loops, acts, response, n);
      if acts[n].Cycle? {
        WalkStep(loops[n].sys.rt, c, acts[n].f);
      } else {
        ServicesLeaveDescent(loops[n].sys, c, acts[n]);
      }
    }
  }

  /** Such a descent takes its three stage budgets at most. */
  lemma OrderlyDescentIsShort(c: Config, loops: seq<Loop>, acts: seq<Action>, response: nat, n: nat)
    requires FreshDescent(c, loops, acts) && Responsive(loops, acts, response)
    requires 0 < response && response + c.tickGap <= c.stage
    requires Falling(loops[0].sys, c)
    requires n < |acts| && forall k | 0 <= k <= n :: Down(loops[k].sys.rt.phase)
    ensures acts[n].Cycle? ==> acts[n].f.now <= loops[0].sys.rt.deadline + c.tickGap + 2 * (c.stage + c.tickGap)
  {
    hide LoopStep, Next, Responsive;
    var p := StagesInOrder(c, loops, acts, response, n);
    LoopPathIsPath(c, loops, acts);
    FallKeepsDownEnd(c, SysOf(loops), acts, n);
    var first, last := loops[0].sys.rt, loops[n].sys.rt;
    LinearBudgets(7 - first.stage, 7 - last.stage, c.stage + c.tickGap);
  }

  lemma LinearBudgets(more: nat, fewer: nat, unit: nat)
    requires more - fewer <= 2
    ensures (more - 1) * unit - (fewer - 1) * unit <= 2 * unit
  {
    assert (more - 1) * unit - (fewer - 1) * unit == (more - fewer) * unit;
  }
}
