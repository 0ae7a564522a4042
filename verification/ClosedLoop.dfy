/** The enable manager closed over 14 CiA 402 drives: what the drives really do
    between one cycle and the next. */
module ClosedLoop {
  import opened Values
  import opened Cia402
  import opened EnableTick
  import opened Protocol
  import opened Climbing
  import opened Quiet

  // ---------- The drive (section 10 of CiA DSP 402 V2.0) ----------

  datatype Request = DisableVoltage | QuickStopping | Shutdown | SwitchOn | EnableOperation

  /** What bits 0 to 3 of a control word ask for. */
  function RequestOf(command: Word): Request {
    if command & 0x0002 == 0 then DisableVoltage
    else if command & 0x0004 == 0 then QuickStopping
    else if command & 0x0001 == 0 then Shutdown
    else if command & 0x0008 == 0 then SwitchOn
    else EnableOperation
  }

  /** A drive under a control word stays where it is or takes one transition of
      the state machine; a fault (transition 13) may come at any time. */
  predicate DriveStep(d: DriveState, command: Word, e: DriveState) {
    var r := RequestOf(command);
    || e == d
    || e == FaultReactionActive
    || (d == FaultReactionActive && e == Fault)
    || (d == Fault && e == SwitchOnDisabled && command & 0x0080 != 0)
    || (d == NotReady && e == SwitchOnDisabled)
    || (d == SwitchOnDisabled && e == ReadyToSwitchOn && r == Shutdown)
    || (d == ReadyToSwitchOn && e == SwitchedOn && (r == SwitchOn || r == EnableOperation))
    || (d == SwitchedOn && e == OperationEnabled && r == EnableOperation)
    || (d == OperationEnabled && e == SwitchedOn && r == SwitchOn)
    || (d == SwitchedOn && e == ReadyToSwitchOn && r == Shutdown)
    || (d == ReadyToSwitchOn && e == SwitchOnDisabled && (r == DisableVoltage || r == QuickStopping))
    || (d == OperationEnabled && e == ReadyToSwitchOn && r == Shutdown)
    || (d == OperationEnabled && e == SwitchOnDisabled && r == DisableVoltage)
    || (d == SwitchedOn && e == SwitchOnDisabled && (r == DisableVoltage || r == QuickStopping))
    || (d == OperationEnabled && e == QuickStopActive && r == QuickStopping)
    || (d == QuickStopActive && e == SwitchOnDisabled)
    || (d == QuickStopActive && e == OperationEnabled && r == EnableOperation)
  }

  /** How much power the drive's stage carries under the controller's command;
      a faulted drive is left to its own reaction. */
  function PowerRank(d: DriveState): nat {
    match d
    case OperationEnabled => 4
    case QuickStopActive => 3
    case SwitchedOn => 2
    case ReadyToSwitchOn => 1
    case _ => 0
  }

  predicate Unpowered(d: DriveState) {
    PowerRank(d) <= 1
  }

  // ---------- What each word asks of the drive that gets it ----------

  function Above(d: DriveState): DriveState {
    match d
    case SwitchOnDisabled => ReadyToSwitchOn
    case ReadyToSwitchOn => SwitchedOn
    case _ => OperationEnabled
  }

  function Below(d: DriveState): DriveState {
    match d
    case OperationEnabled => SwitchedOn
    case SwitchedOn => ReadyToSwitchOn
    case _ => SwitchOnDisabled
  }

  /** The word of the current batch asks for the next state up and no other. */
  lemma ClimbGoesOneUp(batch: Batch, axis: nat, d: DriveState, e: DriveState)
    requires axis < AXES && BatchOf(axis) == batch && OnTheWayUp(d) && !IsFault(e)
    ensures DriveStep(d, EnableCommand(batch, axis, d), e) <==> e == d || e == Above(d)
  {
  }

  /** The word of a descent asks for the next state down and no other; a drive
      that is held in quick stop goes to rest. */
  lemma DescentGoesOneDown(d: DriveState, e: DriveState)
    requires d != Unknown && !IsFault(d) && !IsFault(e)
    ensures DriveStep(d, DescentCommand(d), e) <==> e == d || e == Below(d)
  {
  }

  /** The emergency word asks a running drive for a quick stop, any other for the
      next state down. */
  lemma QuickStopStopsRunning(d: DriveState, e: DriveState)
    requires d != Unknown && !IsFault(d) && !IsFault(e)
    ensures DriveStep(d, QuickStopCommand(d), e) <==>
            e == d || e == if d == OperationEnabled then QuickStopActive else Below(d)
  {
  }

  /** What a descent asks of every axis: running drives to switch operation off,
      switched-on ones to shut down, and no voltage from the others. */
  lemma DescentRequests(s: State, c: Config, f: Frame)
    requires Walking(s.phase)
    ensures forall i | 0 <= i < AXES ::
              RequestOf(Tick(s, c, f).commands[i]) ==
                match f.states[i]
                case OperationEnabled => SwitchOn
                case SwitchedOn => Shutdown
                case _ => DisableVoltage
  {
    TickByPhase(s, c, f);
    DescendWrites(if s.deadline == 0 then StartDescent(s, c, s.phase, f.now) else s, c, f);
    hide Tick, Descend;
  }

  lemma DescendWrites(s: State, c: Config, f: Frame)
    requires Walking(s.phase)
    ensures Descend(s, c, f).commands == DescentCommands(f)
  {
    hide Finish, StageDone, FirstUnsettled, FirstFault, DescentCommands;
    FinishWritesNothing(s.(commands := DescentCommands(f)), f);
    FinishWritesNothing(BlameTimeout(s.(commands := DescentCommands(f)), f), f);
  }

  lemma FinishWritesNothing(s: State, f: Frame)
    ensures Finish(s, f).commands == s.commands
  {
    hide FirstFault, FirstUnsettled;
  }

  /** What an emergency asks of every axis: a quick stop of running drives, which it
      keeps asking for while they stop, so that none is left to coast. */
  lemma QuickStopRequests(s: State, c: Config, f: Frame)
    requires s.phase == EmergencyQuickStop
    ensures forall i | 0 <= i < AXES ::
              RequestOf(Tick(s, c, f).commands[i]) ==
                match f.states[i]
                case OperationEnabled | QuickStopActive => QuickStopping
                case SwitchedOn => Shutdown
                case _ => DisableVoltage
  {
    TickByPhase(s, c, f);
    hide Tick;
  }

  // ---------- Controller and drives together ----------

  datatype Loop = Loop(sys: Sys, drives: States)

  /** A cycle reads the drives as they are; whenever time advances, each drive
      may react to its control word. */
  ghost predicate LoopStep(l: Loop, c: Config, a: Action, n: Loop) {
    && Can(l.sys, c, a) && n.sys == Next(l.sys, c, a)
    && (a.Cycle? ==> a.f.states == l.drives)
    && if a.Advance? then
         forall i | 0 <= i < AXES :: DriveStep(l.drives[i], l.sys.rt.commands[i], n.drives[i])
       else
         n.drives == l.drives
  }

  /** What the real cycle does: it reads status words, each some encoding of its
      drive's state. */
  lemma CycleOverWords(l: Loop, c: Config, words: Words)
    requires forall i | 0 <= i < AXES :: Shows(words[i], l.drives[i])
    ensures var a := Cycle(FrameOf(l.sys.clock, words)); LoopStep(l, c, a, Loop(Next(l.sys, c, a), l.drives))
  {
    FrameShowsDrives(l.sys.clock, words, l.drives);
    hide Next, FrameOf, Shows;
  }

  ghost predicate IsLoopPath(c: Config, loops: seq<Loop>, acts: seq<Action>) {
    && |loops| == |acts| + 1
    && forall i | 0 <= i < |acts| :: LoopStep(loops[i], c, acts[i], loops[i + 1])
  }

  function SysOf(loops: seq<Loop>): (r: seq<Sys>)
    ensures |r| == |loops| && forall i | 0 <= i < |r| :: r[i] == loops[i].sys
  {
    seq(|loops|, i requires 0 <= i < |loops| => loops[i].sys)
  }

  lemma LoopPathIsPath(c: Config, loops: seq<Loop>, acts: seq<Action>)
    requires IsLoopPath(c, loops, acts)
    ensures IsPath(c, SysOf(loops), acts)
  {
    hide Next, Can;
    forall i | 0 <= i < |acts|
      ensures Can(SysOf(loops)[i], c, acts[i]) && SysOf(loops)[i + 1] == Next(SysOf(loops)[i], c, acts[i])
    {
      assert LoopStep(loops[i], c, acts[i], loops[i + 1]);
    }
  }

  // ---------- Batch isolation ----------

  /** Axes of the batches still to come are at rest and commanded to stay there. */
  ghost predicate LaterBatchesRest(l: Loop) {
    forall i | 0 <= i < AXES && BatchOf(i) > l.sys.rt.batch ::
      Unpowered(l.drives[i]) && l.sys.rt.commands[i] == 0x0000
  }

  lemma ZeroKeepsUnpowered(d: DriveState, e: DriveState)
    requires Unpowered(d) && DriveStep(d, 0x0000, e)
    ensures Unpowered(e)
  {
  }

  lemma ClimbCommands(s: State, c: Config, f: Frame)
    requires Ascending(s.phase) && Ascending(Tick(s, c, f).phase)
    ensures var t := Tick(s, c, f);
            t.commands == (if s.phase == Enabling then EnableCommands(s.batch, f) else HoldCommands(f)) &&
            t.batch >= s.batch
  {
    TickByPhase(s, c, f);
    hide Tick, EnableCommands, HoldCommands, FirstFault, FirstInvalid, InvalidFor, FirstLate, BatchComplete;
  }

  lemma StepKeepsIsolation(l: Loop, c: Config, a: Action, n: Loop)
    requires LoopStep(l, c, a, n) && LaterBatchesRest(l)
    requires Ascending(l.sys.rt.phase) && Ascending(n.sys.rt.phase)
    ensures LaterBatchesRest(n)
  {
    hide Tick, Unpowered, DriveStep, BatchOf;
    if a.Cycle? {
      CycleKeepsIsolation(l, c, a.f, n.sys.rt);
    } else {
      StepOffLadder(l.sys, c, a);
      assert n.sys.rt.commands == l.sys.rt.commands by { ServicesKeepCommands(l.sys, c, a); }
      hide Next, Can;
      forall i | 0 <= i < AXES && BatchOf(i) > n.sys.rt.batch
        ensures Unpowered(n.drives[i]) && n.sys.rt.commands[i] == 0x0000
      {
        if a.Advance? { ZeroKeepsUnpowered(l.drives[i], n.drives[i]); }
      }
    }
  }

  lemma ServicesKeepCommands(sys: Sys, c: Config, a: Action)
    requires !a.Cycle?
    ensures Next(sys, c, a).rt.commands == sys.rt.commands
  {
  }

  lemma CycleKeepsIsolation(l: Loop, c: Config, f: Frame, t: State)
    requires LaterBatchesRest(l) && f.states == l.drives && t == Tick(l.sys.rt, c, f)
    requires Ascending(l.sys.rt.phase) && Ascending(t.phase)
    ensures forall i | 0 <= i < AXES && BatchOf(i) > t.batch :: Unpowered(l.drives[i]) && t.commands[i] == 0x0000
  {
    hide Tick, BatchOf;
    ClimbCommands(l.sys.rt, c, f);
  }

  /** Drives at rest when the climb starts: while a batch is current, no axis of a
      later batch is powered, whatever the drives and the services do. */
  lemma {:induction false} LaterBatchesStayOff(c: Config, loops: seq<Loop>, acts: seq<Action>, n: nat)
    requires IsLoopPath(c, loops, acts) && n <= |acts|
    requires forall k | 0 <= k <= n :: Ascending(loops[k].sys.rt.phase)
    requires loops[0].sys.rt.commands == All(0x0000)
    requires forall i | 0 <= i < AXES :: Unpowered(loops[0].drives[i])
    ensures LaterBatchesRest(loops[n])
  {
    hide LoopStep;
    if n > 0 {
      LaterBatchesStayOff(c, loops, acts, n - 1);
      StepKeepsIsolation(loops[n - 1], c, acts[n - 1], loops[n]);
    }
  }

  // ---------- Power only falls ----------

  /** What a drive can turn into while it is only ever asked to go down. */
  predicate FallsTo(d: DriveState, e: DriveState) {
    e == d || IsFault(e) ||
    match d
    case OperationEnabled =>
      e == SwitchedOn || e == QuickStopActive || e == ReadyToSwitchOn || e == SwitchOnDisabled
    case SwitchedOn => e == ReadyToSwitchOn || e == SwitchOnDisabled
    case SwitchOnDisabled => false
    case _ => e == SwitchOnDisabled
  }

  lemma FallingIsTransitive(a: DriveState, b: DriveState, c: DriveState)
    requires FallsTo(a, b) && FallsTo(b, c)
    ensures FallsTo(a, c)
  {
  }

  /** A word that cannot lift the drive it is sent to, now or after it has fallen. */
  predicate Calm(d: DriveState, command: Word) {
    || command == 0x0000 || command == 0x0002 || command == 0x0080
    || (command == 0x0006 && (d == SwitchedOn || d == ReadyToSwitchOn || IsFault(d)))
    || (command == 0x0007 && (d == OperationEnabled || d == SwitchedOn || IsFault(d)))
  }

  lemma CalmOnlyFalls(d: DriveState, command: Word, e: DriveState)
    requires Calm(d, command) && DriveStep(d, command, e)
    ensures FallsTo(d, e) && Calm(e, command) && PowerRank(e) <= PowerRank(d)
  {
  }

  ghost predicate AllCalm(l: Loop) {
    forall i | 0 <= i < AXES :: Calm(l.drives[i], l.sys.rt.commands[i])
  }

  ghost predicate AllFall(before: States, after: States) {
    forall i | 0 <= i < AXES :: FallsTo(before[i], after[i]) && PowerRank(after[i]) <= PowerRank(before[i])
  }

  ghost predicate CalmWords(f: Frame, commands: Words) {
    forall i | 0 <= i < AXES :: Calm(f.states[i], commands[i])
  }

  lemma QuietWordsAreCalm(targets: Marks, f: Frame, commands: Words)
    requires QuietWords(targets, f, commands)
    ensures CalmWords(f, commands)
  {
  }

  lemma StepOnlyFalls(l: Loop, c: Config, a: Action, n: Loop)
    requires LoopStep(l, c, a, n) && !Admits(l.sys, a)
    requires IsQuiet(l.sys.rt) && AllCalm(l)
    ensures IsQuiet(n.sys.rt) && AllCalm(n) && AllFall(l.drives, n.drives)
  {
    if a.Cycle? {
      CycleCalms(l, c, a, n);
    } else {
      ServicesStayQuiet(l.sys, c, a);
      forall i | 0 <= i < AXES
        ensures FallsTo(l.drives[i], n.drives[i]) && Calm(n.drives[i], l.sys.rt.commands[i])
        ensures PowerRank(n.drives[i]) <= PowerRank(l.drives[i])
      {
        if a.Advance? { CalmOnlyFalls(l.drives[i], l.sys.rt.commands[i], n.drives[i]); }
      }
    }
    hide Next, IsQuiet;
  }

  /** The first cycle of a quiet phase replaces whatever words were there before. */
  lemma CycleCalms(l: Loop, c: Config, a: Action, n: Loop)
    requires LoopStep(l, c, a, n) && a.Cycle? && IsQuiet(l.sys.rt)
    ensures IsQuiet(n.sys.rt) && AllCalm(n) && n.drives == l.drives
  {
    hide Tick, IsQuiet, QuietWords;
    TickIsQuiet(l.sys.rt, c, a.f);
    QuietWordsAreCalm(l.sys.rt.targets, a.f, n.sys.rt.commands);
  }

  /** From the first words of a descent to the next admitted enable, no axis ever
      gains power: each drive only falls, whatever it does between the cycles. */
  lemma {:induction false} PowerOnlyFalls(c: Config, loops: seq<Loop>, acts: seq<Action>, m: nat, n: nat)
    requires IsLoopPath(c, loops, acts) && m <= n <= |acts|
    requires IsQuiet(loops[0].sys.rt) && AllCalm(loops[0])
    requires forall k | 0 <= k < n :: !Admits(loops[k].sys, acts[k])
    ensures IsQuiet(loops[n].sys.rt) && AllCalm(loops[n])
    ensures AllFall(loops[m].drives, loops[n].drives)
  {
    hide LoopStep, IsQuiet, AllCalm, Admits;
    if n > 0 {
      PowerOnlyFalls(c, loops, acts, if m < n then m else m - 1, n - 1);
      StepOnlyFalls(loops[n - 1], c, acts[n - 1], loops[n]);
      if m < n {
        forall i | 0 <= i < AXES
          ensures FallsTo(loops[m].drives[i], loops[n].drives[i])
          ensures PowerRank(loops[n].drives[i]) <= PowerRank(loops[m].drives[i])
        {
          FallingIsTransitive(loops[m].drives[i], loops[n - 1].drives[i], loops[n].drives[i]);
        }
      }
    }
  }
}
