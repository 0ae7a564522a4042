/** How long an admitted enable can stay unanswered, from the service call to the
    published result. */
module AnswerTime {
  import opened EnableTick
  import opened Protocol
  import opened Answers
  import opened Climbing
  import opened Descent

  // ---------- What is asked of the handler and the controller switch ----------

  /** The handler may end its wait. */
  predicate Looking(sys: Sys) {
    sys.enablePc == EnableWaiting && sys.rt.hardwareReady.Raised?
  }

  ghost predicate AllLooking(states: seq<Sys>, j: nat, n: nat)
    requires n < |states|
  {
    forall k | j <= k <= n :: Looking(states[k])
  }

  ghost predicate AllSwitching(states: seq<Sys>, j: nat, n: nat)
    requires n < |states|
  {
    forall k | j <= k <= n :: states[k].enablePc == EnableSwitching
  }

  /** The handler notices within `look` that it may go on, and the switch of the
      trajectory controller ends within `switch`. */
  ghost predicate Prompt(states: seq<Sys>, look: nat, switch: nat) {
    && (forall j: nat, n: nat | j <= n < |states| && AllLooking(states, j, n) ::
          states[n].clock <= states[j].clock + look)
    && (forall j: nat, n: nat | j <= n < |states| && AllSwitching(states, j, n) ::
          states[n].clock <= states[j].clock + switch)
  }

  // ---------- The stretch in JtcActivating ----------

  ghost predicate Stretch(states: seq<Sys>, k: nat, n: nat) {
    k < n < |states| && forall j | k < j <= n :: states[j].rt.phase == JtcActivating
  }

  /** A handler in the middle of a switch stays there until the stretch is over or
      the failed switch is on record. */
  lemma StretchStep(sys: Sys, c: Config, a: Action)
    requires Can(sys, c, a) && sys.rt.phase == JtcActivating == Next(sys, c, a).rt.phase
    requires Next(sys, c, a).rt.activateFailed.Lowered?
    ensures sys.rt.activateFailed.Lowered?
    ensures sys.enablePc == EnableSwitching ==> Next(sys, c, a).enablePc == EnableSwitching
    ensures Next(sys, c, a).enablePc == EnableSwitching && sys.enablePc != EnableSwitching ==>
              Next(sys, c, a).clock == sys.clock
  {
    hide Tick, UpTo, NoFault;
    if a.Cycle? { TickLadder(sys.rt, c, a.f); }
  }

  /** In such a stretch the handler first looks (up to state m - 1) and then
      switches. */
  lemma {:induction false} FirstLooksThenSwitches(c: Config, states: seq<Sys>, acts: seq<Action>, k: nat, n: nat,
                                                  look: nat, switch: nat)
    returns (m: nat)
    requires Patient(c) && IsRun(c, states, acts) && Prompt(states, look, switch)
    requires n <= |acts| && Stretch(states, k, n) && states[n].rt.activateFailed.Lowered?
    ensures k < m <= n + 1
    ensures m == n + 1 ==> AllLooking(states, k + 1, n)
    ensures m <= n ==> AllSwitching(states, m, n) && states[m].clock <= states[k + 1].clock + look
  {
    hide Next, Can, Patient, Init;
    NeverStranded(c, states, acts, n);
    if n == k + 1 {
      m := if states[n].enablePc == EnableSwitching then n else n + 1;
    } else {
      StretchStep(states[n - 1], c, acts[n - 1]);
      m := FirstLooksThenSwitches(c, states, acts, k, n - 1, look, switch);
      if m == n && states[n].enablePc != EnableSwitching {
        m := n + 1;
      }
    }
  }

  lemma StretchIsBounded(c: Config, states: seq<Sys>, acts: seq<Action>, k: nat, n: nat, look: nat, switch: nat)
    requires Patient(c) && IsRun(c, states, acts) && Prompt(states, look, switch)
    requires n <= |acts| && Stretch(states, k, n) && states[n].rt.activateFailed.Lowered?
    ensures states[n].clock <= states[k + 1].clock + look + switch
  {
    hide IsRun, Patient, Looking;
    var m := FirstLooksThenSwitches(c, states, acts, k, n, look, switch);
  }

  // ---------- Every part of an enable is on time ----------

  /** The last cycle of a climb whose enable was admitted at `since`. */
  function ClimbOver(c: Config, since: nat): nat {
    since + c.tickGap + ClimbTime(c)
  }

  /** The time by which that enable is answered. */
  function AnswerDue(c: Config, since: nat, look: nat, switch: nat): nat {
    ClimbOver(c, since) + look + switch + c.tickGap + 7 * (c.stage + c.tickGap)
  }

  /** While the enable admitted at `since` is unanswered, the part it is in began
      in time. */
  ghost predicate OnTime(c: Config, sys: Sys, since: nat, look: nat, switch: nat) {
    var s := sys.rt;
    && (s.enableRequest.Raised? ==> sys.lastCycle <= since)
    && (Ascending(s.phase) ==> ClimbEnd(s, c) <= ClimbOver(c, since))
    && (s.phase == JtcActivating ==> sys.lastCycle <= ClimbOver(c, since) + look + switch)
    && (Down(s.phase) ==> Falling(sys, c) && DownEnd(s, c) <= AnswerDue(c, since, look, switch))
  }

  lemma NothingNewPends(sys: Sys, c: Config, a: Action)
    requires Inv(sys) && Can(sys, c, a) && !Admits(sys, a) && Pending(Next(sys, c, a).rt)
    ensures Pending(sys.rt)
  {
    hide Tick;
    if a.Cycle? { TickAnswers(sys.rt, c, a.f); }
  }

  /** A descent that starts now ends within seven budgets. */
  lemma EntryIsOnTime(s: State, c: Config, f: Frame)
    requires !Down(s.phase) && Down(Tick(s, c, f).phase)
    ensures var t := Tick(s, c, f); f.now < t.deadline && DownEnd(t, c) <= f.now + 7 * (c.stage + c.tickGap)
  {
    hide Tick;
    TickEnters(s, c, f);
    DownEndOnEntry(Tick(s, c, f), c, f.now);
  }

  /** One cycle, from each of the parts. */
  lemma CycleIsOnTime(c: Config, sys: Sys, f: Frame, since: nat, look: nat, switch: nat)
    requires Paced(sys, c) && Inv(sys) && OnTime(c, sys, since, look, switch) && Pending(sys.rt)
    requires f.now == sys.clock
    requires sys.rt.phase == JtcActivating && sys.rt.activateFailed.Lowered? ==>
               sys.clock <= ClimbOver(c, since) + look + switch
    requires Pending(Tick(sys.rt, c, f))
    ensures OnTime(c, Next(sys, c, Cycle(f)), since, look, switch)
  {
    hide Tick, ClimbTime, ClimbEnd, DownEnd, UpTo, NoFault;
    var s := sys.rt;
    var t := Tick(s, c, f);
    TickLadder(s, c, f);
    TickAnswers(s, c, f);
    RequestIsPickedUp(s, c, f);
    if Down(s.phase) {
      CycleKeepsDownEnd(s, c, f, sys.lastCycle);
    } else {
      if Down(t.phase) { EntryIsOnTime(s, c, f); }
      if Ascending(s.phase) { CycleKeepsClimbEnd(s, c, f, sys.lastCycle); }
      if s.phase == Idle { PickUpIsOnTime(s, c, f); }
    }
  }

  lemma PickUpIsOnTime(s: State, c: Config, f: Frame)
    requires s.phase == Idle && s.enableRequest.Raised?
    ensures var t := Tick(s, c, f);
            t.phase == Enabling && t.enableRequest.Lowered? && ClimbEnd(t, c) == f.now + ClimbTime(c)
  {
    TickByPhase(s, c, f);
    hide Tick, All, Round;
  }

  lemma ServiceIsOnTime(c: Config, sys: Sys, a: Action, since: nat, look: nat, switch: nat)
    requires OnTime(c, sys, since, look, switch) && Can(sys, c, a) && !a.Cycle? && !Admits(sys, a)
    ensures OnTime(c, Next(sys, c, a), since, look, switch)
  {
    hide ClimbTime, ClimbEnd, AnswerDue, ClimbOver, DownEnd, Can;
    var n := Next(sys, c, a);
    assert n.lastCycle == sys.lastCycle && (n.rt.enableRequest.Raised? ==> sys.rt.enableRequest.Raised?);
    if Down(sys.rt.phase) {
      ServiceKeepsFalling(sys, c, a);
    } else {
      ServicesStartNoDescent(sys, c, a);
      ServiceKeepsClimbEnd(sys, c, a);
      StepOffLadder(sys, c, a);
    }
    hide Next;
  }

  lemma ServiceKeepsFalling(sys: Sys, c: Config, a: Action)
    requires Can(sys, c, a) && !a.Cycle? && Falling(sys, c)
    ensures Falling(Next(sys, c, a), c) && DownEnd(Next(sys, c, a).rt, c) == DownEnd(sys.rt, c)
  {
    ServicesLeaveDescent(sys, c, a);
    ClockStays(sys, c, a);
    hide Next, Can;
  }

  lemma ServicesStartNoDescent(sys: Sys, c: Config, a: Action)
    requires !Down(sys.rt.phase) && !a.Cycle?
    ensures !Down(Next(sys, c, a).rt.phase)
  {
  }

  /** The cycle that ended the climb came in time. */
  ghost predicate Entered(c: Config, states: seq<Sys>, since: nat, k: nat, n: nat) {
    Stretch(states, k, n) && states[k + 1].clock <= ClimbOver(c, since)
  }

  /** From its admission at step `i` on, an unanswered enable is on time. */
  lemma {:induction false} EnableIsOnTime(c: Config, states: seq<Sys>, acts: seq<Action>, i: nat, n: nat,
                                          look: nat, switch: nat)
    returns (k: nat)
    requires Patient(c) && IsRun(c, states, acts) && Prompt(states, look, switch)
    requires i < n <= |acts| && Admits(states[i], acts[i]) && Pending(states[n].rt)
    requires forall j | i < j < n :: !Admits(states[j], acts[j])
    ensures OnTime(c, states[n], states[i].clock, look, switch)
    ensures states[n].rt.phase == JtcActivating ==> Entered(c, states, states[i].clock, k, n)
  {
    hide Patient, Prompt, OnTime, Entered, Admits, Next, Can, Init, Inv, Pending, Paced;
    RunInv(c, states, acts, n - 1);
    RunIsPaced(c, states, acts, n - 1);
    if n == i + 1 {
      AdmissionIsOnTime(c, states[i], acts[i], look, switch);
      k := i;
    } else {
      NothingNewPends(states[n - 1], c, acts[n - 1]);
      k := EnableIsOnTime(c, states, acts, i, n - 1, look, switch);
      k := StepIsOnTime(c, states, acts, states[i].clock, n - 1, k, look, switch);
    }
  }

  lemma StepIsOnTime(c: Config, states: seq<Sys>, acts: seq<Action>, since: nat, n: nat, k: nat,
                     look: nat, switch: nat)
    returns (k': nat)
    requires Patient(c) && IsRun(c, states, acts) && Prompt(states, look, switch) && n < |acts|
    requires Inv(states[n]) && Paced(states[n], c) && !Admits(states[n], acts[n])
    requires Pending(states[n].rt) && Pending(states[n + 1].rt)
    requires OnTime(c, states[n], since, look, switch)
    requires states[n].rt.phase == JtcActivating ==> Entered(c, states, since, k, n)
    ensures OnTime(c, states[n + 1], since, look, switch)
    ensures states[n + 1].rt.phase == JtcActivating ==> Entered(c, states, since, k', n + 1)
  {
    hide Patient, Prompt, OnTime, Admits, Init, Inv, Pending, Paced, Can, Next, Tick, ClimbOver;
    k' := k;
    if acts[n].Cycle? {
      if states[n].rt.phase == JtcActivating && states[n].rt.activateFailed.Lowered? {
        StretchIsBounded(c, states, acts, k, n, look, switch);
      }
      CycleOfRun(states[n], c, acts[n]);
      CycleIsOnTime(c, states[n], acts[n].f, since, look, switch);
      if states[n + 1].rt.phase == JtcActivating && states[n].rt.phase != JtcActivating {
        k' := n;
        EntryOfActivating(c, states[n], acts[n].f, since, look, switch);
      }
    } else {
      ServiceIsOnTime(c, states[n], acts[n], since, look, switch);
      StepOffLadder(states[n], c, acts[n]);
    }
  }

  lemma CycleOfRun(sys: Sys, c: Config, a: Action)
    requires Can(sys, c, a) && a.Cycle?
    ensures a.f.now == sys.clock && a == Cycle(a.f)
    ensures Next(sys, c, a).rt == Tick(sys.rt, c, a.f) && Next(sys, c, a).clock == sys.clock
  {
  }

  lemma AdmissionIsOnTime(c: Config, sys: Sys, a: Action, look: nat, switch: nat)
    requires Admits(sys, a) && Paced(sys, c)
    ensures var n := Next(sys, c, a); OnTime(c, n, sys.clock, look, switch) && n.rt.phase == Idle
  {
  }

  lemma EntryOfActivating(c: Config, sys: Sys, f: Frame, since: nat, look: nat, switch: nat)
    requires Paced(sys, c) && f.now == sys.clock && OnTime(c, sys, since, look, switch)
    requires sys.rt.phase != JtcActivating && Tick(sys.rt, c, f).phase == JtcActivating
    ensures Ascending(sys.rt.phase) && sys.clock <= ClimbOver(c, since)
  {
    hide Tick, ClimbTime, ClimbEnd, UpTo, NoFault;
    TickLadder(sys.rt, c, f);
    CycleKeepsClimbEnd(sys.rt, c, f, sys.lastCycle);
  }

  /** Every admitted enable is answered, exactly once, within a pick-up cycle, the
      climb, a bounded switch and seven stage budgets, whatever the drives report
      and whichever other services are called. */
  lemma EnableIsAnsweredInTime(c: Config, states: seq<Sys>, acts: seq<Action>, i: nat, n: nat, look: nat, switch: nat)
    requires Patient(c) && IsRun(c, states, acts) && Prompt(states, look, switch)
    requires i < n <= |acts| && Admits(states[i], acts[i])
    requires forall j | i < j < n :: !Admits(states[j], acts[j])
    requires states[n].clock > states[i].clock + 5 * c.batch + 4 * c.delay + 11 * c.tickGap + look + switch +
                               7 * (c.stage + c.tickGap)
    ensures var before, after := states[i].rt.enable.history, states[n].rt.enable.history;
            |after| == |before| + 1 && before <= after
  {
    hide Prompt, OnTime, Entered;
    RunInv(c, states, acts, i);
    RunInv(c, states, acts, n);
    RunIsPaced(c, states, acts, n);
    HistoryGrows(c, states, acts, i, n);
    HistoryGrows(c, states, acts, i + 1, n);
    if Pending(states[n].rt) {
      var k := EnableIsOnTime(c, states, acts, i, n, look, switch);
      OnTimeIsNotLate(c, states[n], states[i].clock, look, switch);
    }
  }

  lemma OnTimeIsNotLate(c: Config, sys: Sys, since: nat, look: nat, switch: nat)
    requires OnTime(c, sys, since, look, switch) && Paced(sys, c) && Ownership(sys.rt) && Pending(sys.rt)
    ensures sys.clock <= since + 5 * c.batch + 4 * c.delay + 11 * c.tickGap + look + switch + 7 * (c.stage + c.tickGap)
  {
    ClimbTimeIs(c);
    ClimbEndIsAhead(sys.rt, c);
    if Down(sys.rt.phase) { DownEndIsAhead(sys.rt, c); }
    hide ClimbTime, ClimbEnd, DownEnd;
  }

  lemma DownEndIsAhead(s: State, c: Config)
    requires Down(s.phase)
    ensures DownEnd(s, c) >= s.deadline + c.tickGap
  {
    assert (Budgets(s) - 1) * (c.stage + c.tickGap) >= 0;
  }
}
