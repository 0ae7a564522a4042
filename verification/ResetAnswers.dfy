/** What a fault reset is answered with, and when. */
module ResetAnswers {
  import opened Cia402
  import opened EnableTick
  import opened Protocol
  import opened Answers
  import opened Descent
  import opened Climbing

  /** The first axis not at rest, with its word. */
  ghost predicate FirstUnrested(f: Frame, detail: Failure) {
    && 0 <= detail.joint < AXES && detail.word == f.words[detail.joint] && detail.batch == -1
    && !ConfirmedTerminal(detail.joint, f.states[detail.joint])
    && forall i | 0 <= i < detail.joint :: ConfirmedTerminal(i, f.states[i])
  }

  /** What a cycle does with a reset under way: a disable pre-empts it; the low cycle
      starts its clock; after that it succeeds on the first cycle that reads all
      axes at rest, and fails on the first other one past its deadline. */
  ghost predicate ResetGoes(s: State, c: Config, f: Frame, t: State) {
    if s.disableRequest.Raised? then
      t.reset == Publish(s.reset, Refusal(PreemptedByDisable)) && t.phase == Disabling && t.owner == ByDisable
    else if s.phase == ResetLow then
      t.reset == s.reset && t.phase == ResetHigh && t.deadline == f.now + c.reset
    else if AllConfirmed(f.states) then
      t.reset == Publish(s.reset, Achieved(Success)) && t.phase == Idle && t.owner == Nobody &&
      t.lastFailure == NO_FAILURE
    else if f.now >= s.deadline then
      t.phase == Failed && t.owner == Nobody && t.lastFailure.reason == FaultResetTimeout &&
      FirstUnrested(f, t.lastFailure) && t.reset == Publish(s.reset, Refused(t.lastFailure))
    else
      t.reset == s.reset && t.phase == ResetHigh && t.deadline == s.deadline
  }

  lemma PendingIsUnrested(targets: Marks, f: Frame)
    ensures FirstPending(targets, f) < 0 <==> AllConfirmed(f.states)
    ensures var axis := FirstPending(targets, f);
            axis >= 0 ==> FirstUnrested(f, Failure(FaultResetTimeout, -1, axis, f.words[axis]))
  {
    forall i | 0 <= i < AXES
      ensures ResetPending(targets[i], i, f.states[i]) <==> !ConfirmedTerminal(i, f.states[i])
    {
    }
    hide ResetPending, ConfirmedTerminal;
  }

  lemma ResetUnderWay(s: State, c: Config, f: Frame)
    requires Resetting(s.phase)
    ensures ResetGoes(s, c, f, Tick(s, c, f))
  {
    TickByPhase(s, c, f);
    PendingIsUnrested(s.targets, f);
    hide Tick, FirstPending, AllConfirmed, FirstUnrested, ResetCommands, All, Publish;
  }

  /** What a cycle does with a requested reset: nothing if another request comes
      first, an answer if no axis is faulted, and the low cycle otherwise. */
  lemma ResetIsTakenUp(s: State, c: Config, f: Frame)
    requires Resting(s.phase)
    ensures var t := Tick(s, c, f);
            if s.resetRequest.Lowered? ||
               (if s.phase == Idle then s.enableRequest.Raised? else s.disableRequest.Raised?) then
              t.reset == s.reset && t.resetRequest == s.resetRequest
            else if forall i | 0 <= i < AXES :: !IsFault(f.states[i]) then
              t.reset == Publish(s.reset, Achieved(AlreadyClear)) && t.phase == Idle && t.owner == Nobody &&
              t.resetRequest.Lowered? && t.lastFailure == NO_FAILURE
            else
              t.reset == s.reset && t.phase == ResetLow && t.owner == s.owner && t.resetRequest.Lowered?
  {
    TickByPhase(s, c, f);
    hide Tick, FirstFault, FaultTargets, All, Publish;
  }

  // ---------- From the admission to the answer ----------

  /** The reset admitted at `since` is still to be answered, and on time. */
  ghost predicate ResetWaits(c: Config, sys: Sys, since: nat) {
    var s := sys.rt;
    match s.phase
    case Idle | Failed => s.resetRequest.Raised? && s.owner == ByReset && sys.lastCycle <= since
    case ResetLow => sys.lastCycle <= since + c.tickGap
    case ResetHigh => sys.lastCycle <= s.deadline <= since + 2 * c.tickGap + c.reset
    case _ => false
  }

  /** The cycle at step `k` answers a reset. */
  ghost predicate AnswersReset(states: seq<Sys>, acts: seq<Action>, k: nat)
    requires |states| == |acts| + 1 && k < |acts|
  {
    acts[k].Cycle? && states[k + 1].rt.reset == Publish(states[k].rt.reset, states[k + 1].rt.reset.outcome)
  }

  /** A late disable makes a failed robot overlook the reset it was asked for. */
  predicate Overlooks(sys: Sys, a: Action) {
    a.Cycle? && sys.rt.phase == Failed && sys.rt.disableRequest.Raised?
  }

  lemma ServiceResetWaits(c: Config, sys: Sys, a: Action, since: nat)
    requires ResetWaits(c, sys, since) && Can(sys, c, a) && !a.Cycle?
    ensures ResetWaits(c, Next(sys, c, a), since)
  {
    hide Tick;
  }

  lemma CycleResetWaits(c: Config, sys: Sys, a: Action, since: nat)
    requires ResetWaits(c, sys, since) && Paced(sys, c) && Ownership(sys.rt) && Can(sys, c, a) && a.Cycle?
    requires !Overlooks(sys, a)
    ensures var n := Next(sys, c, a);
            ResetWaits(c, n, since) || n.rt.reset == Publish(sys.rt.reset, n.rt.reset.outcome)
  {
    hide Tick, AllConfirmed, FirstUnrested;
    if Resetting(sys.rt.phase) {
      ResetUnderWay(sys.rt, c, a.f);
    } else {
      ResetIsTakenUp(sys.rt, c, a.f);
    }
  }

  lemma {:induction false} ResetStaysOnTime(c: Config, states: seq<Sys>, acts: seq<Action>, i: nat, n: nat)
    requires IsRun(c, states, acts) && i < n <= |acts|
    requires acts[i].ResetCall? && ResetAdmissible(states[i].rt)
    requires forall k | i < k < n :: !Overlooks(states[k], acts[k]) && !AnswersReset(states, acts, k)
    ensures ResetWaits(c, states[n], states[i].clock)
  {
    hide Can, Tick, Init, Inv, Overlooks;
    RunIsPaced(c, states, acts, n - 1);
    if n > i + 1 {
      ResetStaysOnTime(c, states, acts, i, n - 1);
      RunInv(c, states, acts, n - 1);
      hide Next, ResetWaits, Paced, Ownership;
      if acts[n - 1].Cycle? {
        assert Ownership(states[n - 1].rt) by { InvOwns(states[n - 1]); }
        CycleResetWaits(c, states[n - 1], acts[n - 1], states[i].clock);
        assert !AnswersReset(states, acts, n - 1);
      } else {
        ServiceResetWaits(c, states[n - 1], acts[n - 1], states[i].clock);
      }
    }
  }

  lemma InvOwns(sys: Sys)
    requires Inv(sys)
    ensures Ownership(sys.rt)
  {
    hide Ownership;
  }

  /** Every admitted reset that is not overlooked is answered within three cycle
      gaps and the reset timeout. */
  lemma ResetIsAnsweredInTime(c: Config, states: seq<Sys>, acts: seq<Action>, i: nat, n: nat) returns (k: nat)
    requires IsRun(c, states, acts) && i < n <= |acts|
    requires acts[i].ResetCall? && ResetAdmissible(states[i].rt)
    requires forall j | i < j < n :: !Overlooks(states[j], acts[j])
    requires states[n].clock > states[i].clock + c.reset + 3 * c.tickGap
    ensures i < k < n && AnswersReset(states, acts, k)
  {
    hide Can, Next, Init, Overlooks, AnswersReset;
    if forall j | i < j < n :: !AnswersReset(states, acts, j) {
      ResetStaysOnTime(c, states, acts, i, n);
      RunIsPaced(c, states, acts, n);
      assert false;
    }
    k :| i < k < n && AnswersReset(states, acts, k);
  }

  /** What a late disable does: the robot goes down for it, and the reset keeps
      waiting without an owner or an answer. */
  lemma OverlookedResetWaitsOn(s: State, c: Config, f: Frame)
    requires s.phase == Failed && s.disableRequest.Raised?
    ensures var t := Tick(s, c, f); t.phase == Disabling && t.reset == s.reset && t.resetRequest == s.resetRequest
  {
    TickByPhase(s, c, f);
    hide Tick, FirstFault, All;
  }
}
