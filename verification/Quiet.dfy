/** Once the robot is going down, or down, no cycle commands operation again
    until a later enable is admitted. */
module Quiet {
  import opened Values
  import opened Cia402
  import opened EnableTick
  import opened Protocol
  import opened Answers
  import opened Descent

  predicate IsQuiet(s: State) {
    s.enableRequest.Lowered? &&
    (Down(s.phase) || Resting(s.phase) || s.phase == ResetLow || s.phase == ResetHigh)
  }

  predicate Moderate(command: Word) {
    command == 0x0000 || command == 0x0002 || command == 0x0006 || command == 0x0007 || command == 0x0080
  }

  predicate AllModerate(commands: Words) {
    forall i | 0 <= i < AXES :: Moderate(commands[i])
  }

  /** The only sets of words a quiet cycle writes. */
  ghost predicate QuietWords(targets: Marks, f: Frame, commands: Words) {
    || commands == All(0x0000)
    || commands == DescentCommands(f)
    || commands == QuickStopCommands(f)
    || commands == ResetCommands(targets, f)
  }

  lemma QuietWordsAreModerate(targets: Marks, f: Frame, commands: Words)
    requires QuietWords(targets, f, commands)
    ensures AllModerate(commands) && 0x000F !in commands
  {
  }

  lemma FinishIsQuiet(s: State, f: Frame)
    requires Walking(s.phase) && s.enableRequest.Lowered?
    ensures var t := Finish(s, f); IsQuiet(t) && t.commands == s.commands
  {
    hide FirstUnsettled, FirstFault;
  }

  lemma DescendIsQuiet(s: State, c: Config, f: Frame)
    requires Walking(s.phase) && s.enableRequest.Lowered?
    ensures var t := Descend(s, c, f);
            IsQuiet(t) && t.commands == DescentCommands(f)
  {
    hide Finish, StageDone, FirstUnsettled, FirstFault;
    var s1 := s.(commands := DescentCommands(f));
    FinishIsQuiet(s1, f);
    FinishIsQuiet(BlameTimeout(s1, f), f);
  }

  lemma RestIsQuiet(s: State, c: Config, f: Frame)
    requires IsQuiet(s) && Resting(s.phase)
    ensures var t := if s.phase == Idle then IdleCycle(s, c, f) else FailedCycle(s, c, f);
            IsQuiet(t) && t.commands == All(0x0000)
  {
    hide FirstFault, All;
  }

  lemma ResetIsQuiet(s: State, c: Config, f: Frame)
    requires IsQuiet(s) && Resetting(s.phase)
    ensures var t := ResetCycle(s, c, f); IsQuiet(t) && QuietWords(s.targets, f, t.commands)
  {
    hide FirstPending, DescentCommands, QuickStopCommands, ResetCommands, All;
  }

  lemma TickIsQuiet(s: State, c: Config, f: Frame)
    requires IsQuiet(s)
    ensures var t := Tick(s, c, f); IsQuiet(t) && QuietWords(s.targets, f, t.commands)
  {
    TickByPhase(s, c, f);
    hide Tick, Descend, IdleCycle, FailedCycle, ResetCycle, DescentCommands, QuickStopCommands, ResetCommands, All;
    if Walking(s.phase) {
      DescendIsQuiet(s, c, f);
      DescendIsQuiet(StartDescent(s, c, s.phase, f.now), c, f);
    } else if Resting(s.phase) {
      RestIsQuiet(s, c, f);
    } else if Resetting(s.phase) {
      ResetIsQuiet(s, c, f);
    }
  }

  lemma ServicesStayQuiet(sys: Sys, c: Config, a: Action)
    requires IsQuiet(sys.rt) && !a.Cycle? && !Admits(sys, a)
    ensures var t := Next(sys, c, a).rt;
            IsQuiet(t) && t.commands == sys.rt.commands
  {
  }

  /** From a quiet state on, whatever the drives report and whichever services are
      called, every cycle keeps to commands that enable nothing, until the next
      enable is admitted. */
  lemma {:induction false} QuietUntilNextEnable(c: Config, states: seq<Sys>, acts: seq<Action>, n: nat)
    requires IsPath(c, states, acts) && n <= |acts|
    requires IsQuiet(states[0].rt)
    requires forall k | 0 <= k < n :: !Admits(states[k], acts[k])
    ensures IsQuiet(states[n].rt)
    ensures n > 0 && acts[n - 1].Cycle? ==>
              AllModerate(states[n].rt.commands) && 0x000F !in states[n].rt.commands
  {
    hide Tick;
    if n > 0 {
      QuietUntilNextEnable(c, states, acts, n - 1);
      if acts[n - 1].Cycle? {
        var s, f := states[n - 1].rt, acts[n - 1].f;
        TickIsQuiet(s, c, f);
        QuietWordsAreModerate(s.targets, f, states[n].rt.commands);
      } else {
        ServicesStayQuiet(states[n - 1], c, acts[n - 1]);
      }
    }
  }

  /** A robot at rest is given the zero word on every axis, whatever it is asked. */
  lemma RestWritesZero(s: State, c: Config, f: Frame)
    requires Resting(s.phase)
    ensures forall i | 0 <= i < AXES :: Tick(s, c, f).commands[i] == 0x0000
  {
    TickByPhase(s, c, f);
    hide Tick, FirstFault, FaultTargets;
  }

  /** In a run, every descent is quiet from its first state on. */
  lemma DescentsEnableNothing(c: Config, states: seq<Sys>, acts: seq<Action>, i: nat, n: nat)
    requires IsRun(c, states, acts) && i < n <= |acts|
    requires Down(states[i].rt.phase)
    requires forall k | i <= k < n :: !Admits(states[k], acts[k])
    requires acts[n - 1].Cycle?
    ensures 0x000F !in states[n].rt.commands && AllModerate(states[n].rt.commands)
  {
    hide Can, Next, Tick, Admits, AllModerate;
    RunInv(c, states, acts, i);
    QuietUntilNextEnable(c, states[i..], acts[i..], n - i);
  }

  /** A fault read while the axes are held enabled replaces every enabling command
      on that same cycle. */
  lemma FaultStopsSameCycle(s: State, c: Config, f: Frame)
    requires Watched(s.phase) && FirstFault(f.states) >= 0
    ensures var t := Tick(s, c, f);
            Emergency(t.phase) && t.commands == QuickStopCommands(f) && 0x000F !in t.commands
  {
    QuietWordsAreModerate(s.targets, f, QuickStopCommands(f));
    assert f.states[FirstFault(f.states)] != OperationEnabled;
    TickByPhase(s, c, f);
    hide Tick, QuickStopCommands, FirstFault, FirstNotIn;
  }

  /** While enabling, by contrast, the cycle that reads a fault leaves all commands
      as they were; the quick stop follows one cycle later. */
  lemma FaultWhileEnablingWaitsOneCycle(s: State, c: Config, f: Frame, next: Frame)
    requires Ascending(s.phase) && FirstFault(f.states) >= 0
    ensures var t := Tick(s, c, f);
            t.phase == EmergencyQuickStop && t.commands == s.commands &&
            Tick(t, c, next).commands == QuickStopCommands(next)
  {
    hide QuickStopCommands, FirstFault, ClimbPause, ClimbBatch;
  }
}
