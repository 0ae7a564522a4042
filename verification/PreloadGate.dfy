/** One EtherCAT drive whose CiA 402 states are sequenced from outside.  The
    gate keeps the drive from operation until the bus has carried the drive's own
    position as target, and then holds that target until a command close to the
    actual position takes over. */
module PreloadGate {
  import opened Values
  import opened Cia402

  datatype Channel = ControlWord | TargetPosition | ActualPosition | StatusWord | Other

  /** A control word commanded, or none. */
  datatype Request = Silent | Request(word: Word)

  /** How the process data of the drive are mapped and scaled. */
  datatype Layout = Layout(
    channels: seq<Channel>,
    controlMapped: bool,
    positionMapped: bool,
    controlDefault: Request,
    factor: real,
    offset: real,
    actualFactor: real,
    actualOffset: real)

  /** The fields of the drive object, the two command interfaces it reads, and the
      two words of the process image it writes. */
  datatype Drive = Drive(
    operational: Flag,
    state: DriveState,
    statusWord: Word,
    lastStatusWord: Word,
    actualSeen: Flag,
    position: Number,
    raw: Number,
    preloaded: Flag,
    pending: Flag,
    preloadRaw: Number,
    synchronized: Flag,
    takeover: Flag,
    controlDefault: Request,
    controlOverride: Flag,
    targetDefault: Number,
    targetOverride: Flag,
    controlCommand: Request,
    positionCommand: Number,
    controlPdo: Word,
    targetPdo: real)

  /** About one degree. */
  const TOLERANCE: real := 0.017453292519943295

  predicate Enables(word: Word) {
    word & 0x000F == 0x000F
  }

  // ---------- What each channel does in a pass ----------

  function GateControl(g: Layout, d: Drive): Drive {
    if !d.operational.Raised? then d
    else if g.controlMapped && d.controlCommand.Request? && !d.preloaded.Raised? && Enables(d.controlCommand.word) then
      d.(controlDefault := Request(0x0007), controlOverride := Raised)
    else d.(controlOverride := Lowered)
  }

  /** The word the control channel leaves in the process image. */
  function ControlWritten(g: Layout, d: Drive): Word {
    if g.controlMapped && d.controlCommand.Request? && !d.controlOverride.Raised? then d.controlCommand.word
    else if d.controlDefault.Request? then d.controlDefault.word
    else d.controlPdo
  }

  function WriteControl(g: Layout, d: Drive): Drive {
    d.(controlPdo := ControlWritten(g, d))
  }

  predicate CommandIsClose(g: Layout, d: Drive) {
    g.positionMapped && d.positionCommand.Finite? && d.position.Finite? &&
    Distance(d.positionCommand.value, d.position.value) <= TOLERANCE
  }

  function GateTarget(g: Layout, d: Drive): Drive {
    if d.actualSeen.Raised? && d.raw.Finite? then
      if d.state != OperationEnabled then d.(targetDefault := d.raw, targetOverride := Raised)
      else
        var takeover := RaisedIf(d.takeover.Raised? || CommandIsClose(g, d));
        d.(takeover := takeover, synchronized := takeover, targetDefault := d.preloadRaw,
           targetOverride := RaisedIf(!d.preloaded.Raised? || !takeover.Raised?))
    else d.(targetDefault := NotFinite, targetOverride := Raised)
  }

  /** The value the target channel writes, if any. */
  function TargetWritten(g: Layout, d: Drive): Number {
    if g.positionMapped && d.positionCommand.Finite? && !d.targetOverride.Raised? then
      Finite(Scaled(g.factor, g.offset, d.positionCommand.value))
    else d.targetDefault
  }

  function WriteTarget(g: Layout, d: Drive): Drive {
    var written := TargetWritten(g, d);
    if written.Finite? then d.(targetPdo := written.value) else d
  }

  predicate PreloadRequested(d: Drive) {
    d.actualSeen.Raised? && d.raw.Finite? && d.state != OperationEnabled
  }

  function ProcessTarget(g: Layout, d: Drive): Drive {
    var d1 := GateTarget(g, d);
    var d2 := WriteTarget(g, d1);
    if PreloadRequested(d) then d2.(pending := Raised, preloadRaw := TargetWritten(g, d1)) else d2
  }

  function Scaled(factor: real, offset: real, value: real): real {
    factor * value + offset
  }

  function ProcessActual(g: Layout, d: Drive, raw: int): Drive {
    d.(raw := Finite(raw as real), position := Finite(Scaled(g.actualFactor, g.actualOffset, raw as real)),
       actualSeen := Raised)
  }

  function ResetSession(g: Layout, d: Drive): Drive {
    d.(preloaded := Lowered, pending := Lowered, preloadRaw := NotFinite, synchronized := Lowered, takeover := Lowered,
       positionCommand := if g.positionMapped then NotFinite else d.positionCommand)
  }

  /** After the last channel of a pass. */
  function EndOfPass(g: Layout, d: Drive): Drive {
    var state := if d.statusWord != d.lastStatusWord then Decode(d.statusWord) else d.state;
    var d1 := d.(state := state, lastStatusWord := d.statusWord);
    if d.state == OperationEnabled && state != OperationEnabled then ResetSession(g, d1) else d1
  }

  function ProcessChannel(g: Layout, d: Drive, channel: Channel, word: Word, raw: int): Drive {
    match channel
    case ControlWord => WriteControl(g, GateControl(g, d))
    case TargetPosition => ProcessTarget(g, d)
    case ActualPosition => ProcessActual(g, d, raw)
    case StatusWord => d.(statusWord := word)
    case Other => d
  }

  /** `word` and `raw` are what the process image holds for an input channel. */
  function Process(g: Layout, d: Drive, index: nat, word: Word, raw: int): Drive
    requires index < |g.channels|
  {
    var d1 := ProcessChannel(g, d, g.channels[index], word, raw);
    if index == |g.channels| - 1 then EndOfPass(g, d1) else d1
  }

  function Sent(d: Drive): Drive {
    if d.pending.Raised? then d.(preloaded := Raised, pending := Lowered) else d
  }

  // ---------- Runs ----------

  datatype Event =
    | Channel(index: nat, word: Word, raw: int)
    | CycleSent
    | CommandControl(request: Request)
    | CommandPosition(command: Number)
    | Operational(flag: Flag)

  /** Channels are served in any order, and commands arrive between any two. */
  predicate Can(g: Layout, e: Event) {
    e.Channel? ==> e.index < |g.channels|
  }

  function Next(g: Layout, d: Drive, e: Event): Drive
    requires Can(g, e)
  {
    match e
    case Channel(index, word, raw) => Process(g, d, index, word, raw)
    case CycleSent => Sent(d)
    case CommandControl(request) => d.(controlCommand := request)
    case CommandPosition(command) => d.(positionCommand := command)
    case Operational(flag) => d.(operational := flag)
  }

  /** After setup; the state, the words and the process image are arbitrary. */
  predicate Init(g: Layout, d: Drive) {
    && d.state != OperationEnabled && !d.actualSeen.Raised? && d.position == d.raw == NotFinite
    && !d.preloaded.Raised? && !d.pending.Raised? && d.preloadRaw == NotFinite
    && !d.synchronized.Raised? && !d.takeover.Raised?
    && d.controlDefault == g.controlDefault && !d.controlOverride.Raised?
    && d.positionCommand == NotFinite
  }

  predicate IsRun(g: Layout, drives: seq<Drive>, events: seq<Event>) {
    && |drives| == |events| + 1 && Init(g, drives[0])
    && forall i | 0 <= i < |events| :: Can(g, events[i]) && drives[i + 1] == Next(g, drives[i], events[i])
  }

  predicate Serves(g: Layout, e: Event, channel: Channel) {
    e.Channel? && e.index < |g.channels| && g.channels[e.index] == channel
  }

  /** No enable session ends between steps j and i. */
  predicate SameSession(drives: seq<Drive>, j: nat, i: nat)
    requires j <= i < |drives|
  {
    forall k | j < k <= i :: drives[k - 1].state == OperationEnabled ==> drives[k].state == OperationEnabled
  }

  // ---------- Invariants ----------

  ghost predicate Inv(g: Layout, d: Drive) {
    && (d.pending.Raised? || d.preloaded.Raised? ==> d.preloadRaw.Finite?)
    && (d.takeover.Raised? ==> d.state == OperationEnabled)
    && (d.preloadRaw.Finite? && !(d.takeover.Raised? && d.preloaded.Raised?) ==> d.targetPdo == d.preloadRaw.value)
    && (d.controlDefault == g.controlDefault || d.controlDefault == Request(0x0007))
  }

  lemma ControlKeepsInv(g: Layout, d: Drive)
    requires Inv(g, d)
    ensures Inv(g, WriteControl(g, GateControl(g, d)))
  {
    GateKeepsInv(g, d);
    hide GateControl, ControlWritten;
  }

  lemma GateKeepsInv(g: Layout, d: Drive)
    requires Inv(g, d)
    ensures Inv(g, GateControl(g, d))
  {
    hide Enables;
    var d1 := GateControl(g, d);
    assert d1 == d.(controlDefault := d1.controlDefault, controlOverride := d1.controlOverride);
    assert d1.controlDefault == d.controlDefault || d1.controlDefault == Request(0x0007);
    hide GateControl;
  }

  lemma TargetKeepsInv(g: Layout, d: Drive)
    requires Inv(g, d)
    ensures Inv(g, ProcessTarget(g, d))
  {
    hide CommandIsClose;
    if d.actualSeen.Raised? && d.raw.Finite? && d.state != OperationEnabled {
      assert GateTarget(g, d) == d.(targetDefault := d.raw, targetOverride := Raised);
    }
  }

  lemma EndKeepsInv(g: Layout, d: Drive)
    requires Inv(g, d)
    ensures Inv(g, EndOfPass(g, d))
  {
    hide Decode;
  }

  lemma StepKeepsInv(g: Layout, d: Drive, e: Event)
    requires Inv(g, d) && Can(g, e)
    ensures Inv(g, Next(g, d, e))
  {
    if e.Channel? {
      hide EndOfPass, GateControl, WriteControl, ProcessTarget, Inv;
      var d1 := ProcessChannel(g, d, g.channels[e.index], e.word, e.raw);
      assert Inv(g, d1) by { ChannelKeepsInv(g, d, g.channels[e.index], e.word, e.raw); }
      EndKeepsInv(g, d1);
    }
  }

  lemma ChannelKeepsInv(g: Layout, d: Drive, channel: Channel, word: Word, raw: int)
    requires Inv(g, d)
    ensures Inv(g, ProcessChannel(g, d, channel, word, raw))
  {
    hide GateControl, WriteControl, ProcessTarget;
    if channel == ControlWord {
      hide Inv;
      ControlKeepsInv(g, d);
    } else if channel == TargetPosition {
      hide Inv;
      TargetKeepsInv(g, d);
    }
  }

  lemma {:induction false} RunInv(g: Layout, drives: seq<Drive>, events: seq<Event>, i: nat)
    requires IsRun(g, drives, events) && i < |drives|
    ensures Inv(g, drives[i])
  {
    if i > 0 {
      RunInv(g, drives, events, i - 1);
      StepKeepsInv(g, drives[i - 1], events[i - 1]);
    }
  }

  // ---------- Operation follows the preload ----------

  predicate DefaultIsSafe(g: Layout) {
    g.controlDefault.Request? && !Enables(g.controlDefault.word)
  }

  lemma EnablingNeedsPreload(g: Layout, d: Drive)
    requires Inv(g, d) && DefaultIsSafe(g) && d.operational.Raised?
    requires Enables(ControlWritten(g, GateControl(g, d)))
    ensures d.preloaded.Raised?
  {
    assert !Enables(0x0007);
    hide Enables;
  }

  predicate Leaves(d: Drive, n: Drive) {
    d.state == OperationEnabled && n.state != OperationEnabled
  }

  /** Where each fact about the drive after a step comes from. */
  ghost predicate Explained(g: Layout, d: Drive, e: Event, n: Drive) {
    && (Leaves(d, n) ==> !n.preloaded.Raised? && !n.pending.Raised? && !n.takeover.Raised?)
    && (Leaves(d, n) && g.positionMapped ==> n.positionCommand == NotFinite)
    && (n.preloaded.Raised? ==> d.preloaded.Raised? || (e == CycleSent && d.pending.Raised?))
    && (n.pending.Raised? ==>
          (d.pending.Raised? && n.preloadRaw == d.preloadRaw) ||
          (Serves(g, e, TargetPosition) && d.state != OperationEnabled && n.preloadRaw == d.raw))
    && (Serves(g, e, ActualPosition) ==> n.raw == Finite(e.raw as real))
    && (!Serves(g, e, ActualPosition) ==> n.raw == d.raw)
    && (n.takeover.Raised? ==>
          d.takeover.Raised? ||
          (Serves(g, e, TargetPosition) && d.state == OperationEnabled && CommandIsClose(g, d)))
    && (g.positionMapped && n.positionCommand.Finite? ==>
          n.positionCommand == d.positionCommand || e == CommandPosition(n.positionCommand))
    && (n.targetPdo != d.targetPdo ==> TargetExplained(g, d, e, n.targetPdo))
  }

  ghost predicate TargetExplained(g: Layout, d: Drive, e: Event, target: real) {
    && Serves(g, e, TargetPosition)
    && (d.state != OperationEnabled ==> d.raw == Finite(target))
    && (d.state == OperationEnabled ==>
          && d.preloaded.Raised? && (d.takeover.Raised? || CommandIsClose(g, d))
          && Finite(target) == if g.positionMapped && d.positionCommand.Finite?
                               then Finite(Scaled(g.factor, g.offset, d.positionCommand.value)) else d.preloadRaw)
  }

  lemma TargetStep(g: Layout, d: Drive, e: Event)
    requires Inv(g, d) && Serves(g, e, TargetPosition)
    ensures Explained(g, d, e, ProcessTarget(g, d)) && ProcessTarget(g, d).state == d.state
  {
    hide CommandIsClose;
    if d.actualSeen.Raised? && d.raw.Finite? && d.state != OperationEnabled {
      assert GateTarget(g, d) == d.(targetDefault := d.raw, targetOverride := Raised);
    }
  }

  lemma ChannelStep(g: Layout, d: Drive, e: Event)
    requires Inv(g, d) && Can(g, e) && e.Channel?
    ensures var n := ProcessChannel(g, d, g.channels[e.index], e.word, e.raw);
            Explained(g, d, e, n) && n.state == d.state
  {
    if g.channels[e.index] == TargetPosition {
      hide Explained, ProcessTarget;
      TargetStep(g, d, e);
    } else {
      hide CommandIsClose, Enables, ControlWritten, TargetExplained, Inv;
      assert GateControl(g, d) == d.(controlDefault := GateControl(g, d).controlDefault,
                                     controlOverride := GateControl(g, d).controlOverride);
      hide GateControl;
    }
  }

  lemma EndStep(g: Layout, d: Drive, e: Event, m: Drive)
    requires Explained(g, d, e, m) && m.state == d.state
    ensures Explained(g, d, e, EndOfPass(g, m))
  {
    hide Decode, CommandIsClose, TargetExplained;
  }

  lemma StepExplained(g: Layout, d: Drive, e: Event)
    requires Inv(g, d) && Can(g, e)
    ensures Explained(g, d, e, Next(g, d, e))
  {
    if e.Channel? {
      hide Explained, EndOfPass, ProcessChannel, Inv;
      assert Inv(g, d);
      ChannelStep(g, d, e);
      EndStep(g, d, e, ProcessChannel(g, d, g.channels[e.index], e.word, e.raw));
    } else {
      hide CommandIsClose, TargetExplained, Inv;
    }
  }

  lemma RunExplained(g: Layout, drives: seq<Drive>, events: seq<Event>, i: nat)
    requires IsRun(g, drives, events) && i < |events|
    ensures Inv(g, drives[i]) && Explained(g, drives[i], events[i], drives[i + 1])
  {
    RunInv(g, drives, events, i);
    StepExplained(g, drives[i], events[i]);
  }

  /** What a step leaves of the session is what the step before had or got. */
  lemma SessionGoesOn(g: Layout, drives: seq<Drive>, events: seq<Event>, i: nat)
    requires IsRun(g, drives, events) && 0 < i < |drives|
    ensures var d, e, n := drives[i - 1], events[i - 1], drives[i];
            && (n.preloaded.Raised? ==>
                  !Leaves(d, n) && (d.preloaded.Raised? || (e == CycleSent && d.pending.Raised? && Held(d))))
            && (n.pending.Raised? ==>
                  !Leaves(d, n) &&
                  ((d.pending.Raised? && n.preloadRaw == d.preloadRaw) ||
                   (Serves(g, e, TargetPosition) && d.state != OperationEnabled && n.preloadRaw == d.raw)))
            && n.raw == (if Serves(g, e, ActualPosition) then Finite(e.raw as real) else d.raw)
            && (n.takeover.Raised? ==>
                  !Leaves(d, n) &&
                  (d.takeover.Raised? ||
                   (Serves(g, e, TargetPosition) && d.state == OperationEnabled && CommandIsClose(g, d))))
            && (g.positionMapped && n.positionCommand.Finite? ==>
                  !Leaves(d, n) &&
                  (n.positionCommand == d.positionCommand || e == CommandPosition(n.positionCommand)))
  {
    hide Next, Init, Can, TargetExplained, CommandIsClose;
    RunExplained(g, drives, events, i - 1);
  }

  /** What the next lemmas look for has a step that brought it. */
  lemma NothingAtFirst(g: Layout, drives: seq<Drive>, events: seq<Event>, i: nat)
    requires IsRun(g, drives, events) && i < |drives|
    requires drives[i].preloaded.Raised? || drives[i].pending.Raised? || drives[i].takeover.Raised? ||
             drives[i].raw.Finite? || drives[i].positionCommand.Finite?
    ensures i > 0
  {
    hide Next, Can;
  }

  /** Until a preload was sent, the target is the one that is pending. */
  predicate Held(d: Drive) {
    d.preloaded.Raised? || d.preloadRaw == Finite(d.targetPdo)
  }

  /** The cycle that set a preload: what it sent as target was the preload. */
  lemma {:induction false} FindSent(g: Layout, drives: seq<Drive>, events: seq<Event>, i: nat) returns (j: nat)
    requires IsRun(g, drives, events) && i < |drives| && drives[i].preloaded.Raised?
    ensures j < i && SameSession(drives, j, i) && events[j] == CycleSent && drives[j].pending.Raised?
    ensures drives[j].preloadRaw == Finite(drives[j].targetPdo)
  {
    hide Next, Init, Can, Serves, CommandIsClose;
    NothingAtFirst(g, drives, events, i);
    SessionGoesOn(g, drives, events, i);
    if drives[i - 1].preloaded.Raised? {
      j := FindSent(g, drives, events, i - 1);
    } else {
      j := i - 1;
    }
  }

  /** The preload that is pending was the raw position when it was written. */
  lemma {:induction false} FindPreload(g: Layout, drives: seq<Drive>, events: seq<Event>, j: nat) returns (k: nat)
    requires IsRun(g, drives, events) && j < |drives| && drives[j].pending.Raised?
    ensures k < j && SameSession(drives, k, j) && Serves(g, events[k], TargetPosition)
    ensures drives[k].state != OperationEnabled && drives[k].raw == drives[j].preloadRaw
  {
    hide Next, Init, Can, Serves, CommandIsClose;
    NothingAtFirst(g, drives, events, j);
    SessionGoesOn(g, drives, events, j);
    if Serves(g, events[j - 1], TargetPosition) && drives[j - 1].state != OperationEnabled &&
       drives[j].preloadRaw == drives[j - 1].raw {
      k := j - 1;
    } else {
      k := FindPreload(g, drives, events, j - 1);
    }
  }

  /** A raw position in hand is the latest the drive reported. */
  lemma {:induction false} FindReading(g: Layout, drives: seq<Drive>, events: seq<Event>, k: nat) returns (m: nat)
    requires IsRun(g, drives, events) && k < |drives| && drives[k].raw.Finite?
    ensures m < k && Serves(g, events[m], ActualPosition) && drives[k].raw == Finite(events[m].raw as real)
    ensures forall n | m < n < k :: !Serves(g, events[n], ActualPosition)
  {
    hide Next, Init, Can, Serves, CommandIsClose;
    NothingAtFirst(g, drives, events, k);
    SessionGoesOn(g, drives, events, k);
    if Serves(g, events[k - 1], ActualPosition) {
      m := k - 1;
    } else {
      m := FindReading(g, drives, events, k - 1);
    }
  }

  /** Step `i` gives an operational drive a control word that enables operation. */
  predicate EnablesAt(g: Layout, drives: seq<Drive>, events: seq<Event>, i: nat)
    requires |drives| == |events| + 1 && i < |events|
  {
    Serves(g, events[i], ControlWord) && drives[i].operational.Raised? && Enables(drives[i + 1].controlPdo)
  }

  /** Before step `i`, in its session, a cycle was sent (step j) with the position
      the drive last reported (step m) written as target (step k). */
  ghost predicate FollowsPreload(g: Layout, drives: seq<Drive>, events: seq<Event>, i: nat, m: nat, k: nat, j: nat)
    requires |drives| == |events| + 1 && i < |events|
  {
    && m < k < j < i && SameSession(drives, k, i)
    && Serves(g, events[m], ActualPosition) && (forall n | m < n < k :: !Serves(g, events[n], ActualPosition))
    && Serves(g, events[k], TargetPosition) && drives[k].state != OperationEnabled
    && events[j] == CycleSent && drives[j].targetPdo == events[m].raw as real
  }

  lemma EnablingStepNeedsPreload(g: Layout, drives: seq<Drive>, events: seq<Event>, i: nat)
    requires |drives| == |events| + 1 && i < |events| && Can(g, events[i])
    requires drives[i + 1] == Next(g, drives[i], events[i])
    requires Inv(g, drives[i]) && DefaultIsSafe(g) && EnablesAt(g, drives, events, i)
    ensures drives[i].preloaded.Raised?
  {
    ControlIsWritten(g, drives[i], events[i]);
    hide Next, Inv, ControlWritten, GateControl, Enables;
    EnablingNeedsPreload(g, drives[i]);
  }

  lemma ControlIsWritten(g: Layout, d: Drive, e: Event)
    requires Can(g, e) && Serves(g, e, ControlWord)
    ensures Next(g, d, e).controlPdo == ControlWritten(g, GateControl(g, d))
  {
    hide Decode, GateControl, ControlWritten;
  }

  /** An operational drive is given a control word that enables operation only
      after its preload was sent. */
  lemma OperationFollowsPreload(g: Layout, drives: seq<Drive>, events: seq<Event>, i: nat)
    returns (m: nat, k: nat, j: nat)
    requires IsRun(g, drives, events) && i < |events| && DefaultIsSafe(g)
    requires EnablesAt(g, drives, events, i)
    ensures FollowsPreload(g, drives, events, i, m, k, j)
  {
    hide EnablesAt, Inv, Next, Init, Serves, Process;
    RunInv(g, drives, events, i);
    EnablingStepNeedsPreload(g, drives, events, i);
    j := FindSent(g, drives, events, i);
    k := FindPreload(g, drives, events, j);
    m := FindReading(g, drives, events, k);
  }

  // ---------- The controller takes over at the preload ----------

  lemma {:induction false} FindTakeover(g: Layout, drives: seq<Drive>, events: seq<Event>, i: nat) returns (j: nat)
    requires IsRun(g, drives, events) && i < |drives| && drives[i].takeover.Raised?
    ensures j < i && SameSession(drives, j, i) && Serves(g, events[j], TargetPosition)
    ensures drives[j].state == OperationEnabled && CommandIsClose(g, drives[j])
  {
    hide Next, Init, Can, Serves, CommandIsClose;
    NothingAtFirst(g, drives, events, i);
    SessionGoesOn(g, drives, events, i);
    if drives[i - 1].takeover.Raised? {
      j := FindTakeover(g, drives, events, i - 1);
    } else {
      j := i - 1;
    }
  }

  /** A command in hand was given in the session it is used in. */
  lemma {:induction false} FindSeed(g: Layout, drives: seq<Drive>, events: seq<Event>, j: nat) returns (m: nat)
    requires IsRun(g, drives, events) && j < |drives| && g.positionMapped && drives[j].positionCommand.Finite?
    ensures m < j && SameSession(drives, m, j) && events[m] == CommandPosition(drives[j].positionCommand)
  {
    hide Next, Init, Can, Serves, CommandIsClose;
    NothingAtFirst(g, drives, events, j);
    SessionGoesOn(g, drives, events, j);
    if events[j - 1] == CommandPosition(drives[j].positionCommand) {
      m := j - 1;
    } else {
      m := FindSeed(g, drives, events, j - 1);
    }
  }

  /** Every change of the target is the drive's own position while it is not
      enabled.  While it is enabled, the gate must have been passed, and in this
      session a command given in it (step m) must have been seen close to the
      actual position (step j), on this very step if no command had taken over;
      the target is then the scaled command, or the preload again if the
      controller falls silent. */
  lemma TargetChangesAreEarned(g: Layout, drives: seq<Drive>, events: seq<Event>, i: nat) returns (m: nat, j: nat)
    requires IsRun(g, drives, events) && i < |events| && drives[i + 1].targetPdo != drives[i].targetPdo
    ensures Serves(g, events[i], TargetPosition)
    ensures drives[i].state != OperationEnabled ==> drives[i].raw == Finite(drives[i + 1].targetPdo)
    ensures drives[i].state == OperationEnabled ==>
              && drives[i].preloaded.Raised?
              && m < j <= i && SameSession(drives, m, i)
              && Serves(g, events[j], TargetPosition) && drives[j].state == OperationEnabled
              && CommandIsClose(g, drives[j]) && events[m] == CommandPosition(drives[j].positionCommand)
              && (!drives[i].takeover.Raised? ==> j == i)
              && Finite(drives[i + 1].targetPdo) ==
                 if drives[i].positionCommand.Finite?
                 then Finite(Scaled(g.factor, g.offset, drives[i].positionCommand.value)) else drives[i].preloadRaw
  {
    RunExplained(g, drives, events, i);
    m, j := 0, i;
    if drives[i].state == OperationEnabled {
      hide Next, Init, Inv;
      if drives[i].takeover.Raised? {
        j := FindTakeover(g, drives, events, i);
      }
      m := FindSeed(g, drives, events, j);
    }
  }

  // ---------- Where the gate ends ----------

  /** No run enables operation before the preload was sent. */
  ghost predicate GateHolds(g: Layout) {
    forall drives: seq<Drive>, events: seq<Event>, i: nat | IsRun(g, drives, events) && i < |events| ::
      EnablesAt(g, drives, events, i) ==>
        exists m: nat, k: nat, j: nat :: FollowsPreload(g, drives, events, i, m, k, j)
  }

  /** With any other default, or none, the first word served breaks the gate. */
  lemma UnsafeDefaultBypassesGate(g: Layout, index: nat) returns (drives: seq<Drive>, events: seq<Event>)
    requires index < |g.channels| && g.channels[index] == ControlWord && !DefaultIsSafe(g)
    ensures IsRun(g, drives, events) && |events| == 1 && EnablesAt(g, drives, events, 0)
  {
    var d := Drive(Raised, Unknown, 0, 0, Lowered, NotFinite, NotFinite, Lowered, Lowered, NotFinite, Lowered, Lowered,
                   g.controlDefault, Lowered, NotFinite, Lowered, Silent, NotFinite, 0x000F, 0.0);
    events := [Channel(index, 0, 0)];
    drives := [d, Next(g, d, events[0])];
    assert GateControl(g, d) == d;
    assert Enables(0x000F);
    hide Enables;
  }

  /** The gate holds in every run exactly if the default control word is given and
      does not itself enable operation. */
  lemma GateHoldsExactly(g: Layout)
    requires ControlWord in g.channels
    ensures GateHolds(g) <==> DefaultIsSafe(g)
  {
    hide EnablesAt, FollowsPreload, DefaultIsSafe, Init, Next, Can;
    if DefaultIsSafe(g) {
      forall drives: seq<Drive>, events: seq<Event>, i: nat | IsRun(g, drives, events) && i < |events|
        ensures EnablesAt(g, drives, events, i) ==>
                  exists m: nat, k: nat, j: nat :: FollowsPreload(g, drives, events, i, m, k, j)
      {
        if EnablesAt(g, drives, events, i) {
          var m, k, j := OperationFollowsPreload(g, drives, events, i);
        }
      }
    } else {
      var index :| 0 <= index < |g.channels| && g.channels[index] == ControlWord;
      var drives, events := UnsafeDefaultBypassesGate(g, index);
      NothingBeforeFirst(g, drives, events);
    }
  }

  lemma NothingBeforeFirst(g: Layout, drives: seq<Drive>, events: seq<Event>)
    requires |drives| == |events| + 1 && 0 < |events|
    ensures forall m: nat, k: nat, j: nat :: !FollowsPreload(g, drives, events, 0, m, k, j)
  {
  }

  /** The gate does open: a target served after a position was read, then a sent
      cycle, and a word that enables operation reaches the drive. */
  lemma GateOpens(g: Layout, d: Drive)
    requires g.controlMapped && d.operational.Raised? && d.controlCommand.Request?
    requires d.actualSeen.Raised? && d.raw.Finite? && d.state != OperationEnabled
    ensures var ready := Sent(ProcessTarget(g, d));
            Finite(ready.targetPdo) == d.raw &&
            WriteControl(g, GateControl(g, ready)).controlPdo == d.controlCommand.word
  {
    hide CommandIsClose, Enables;
    assert GateTarget(g, d) == d.(targetDefault := d.raw, targetOverride := Raised);
    hide GateTarget;
  }

  /** Any word that does not enable operation passes the gate at once. */
  lemma OtherWordsPass(g: Layout, d: Drive)
    requires g.controlMapped && d.operational.Raised? && d.controlCommand.Request?
    ensures WriteControl(g, GateControl(g, d)).controlPdo ==
            if d.preloaded.Raised? || !Enables(d.controlCommand.word) then d.controlCommand.word else 0x0007
  {
    hide Enables;
    if d.preloaded.Raised? || !Enables(d.controlCommand.word) {
      assert GateControl(g, d) == d.(controlOverride := Lowered);
      hide GateControl;
    } else {
      assert GateControl(g, d) == d.(controlDefault := Request(0x0007), controlOverride := Raised);
      hide GateControl;
    }
  }

  /** A position is read as it comes and scaled. */
  lemma PositionIsRead(g: Layout, d: Drive, raw: int)
    ensures var n := ProcessActual(g, d, raw);
            n.raw == Finite(raw as real) && n.position == Finite(g.actualFactor * (raw as real) + g.actualOffset)
  {
  }

  // ---------- The controller does take over ----------

  /** The drive is enabled, its preload was sent and its position is known. */
  predicate Seeded(d: Drive) {
    d.state == OperationEnabled && d.preloaded.Raised? && d.actualSeen.Raised? && d.raw.Finite?
  }

  predicate Following(d: Drive) {
    Seeded(d) && d.takeover.Raised?
  }

  /** Served with a finite command that is close to the actual position, or after
      one has taken over, the target is that command, scaled. */
  lemma CommandIsFollowed(g: Layout, d: Drive)
    requires Seeded(d) && g.positionMapped && d.positionCommand.Finite?
    requires Following(d) ||
             (d.position.Finite? && -TOLERANCE <= d.positionCommand.value - d.position.value <= TOLERANCE)
    ensures var n := ProcessTarget(g, d);
            Following(n) && n.targetPdo == g.factor * d.positionCommand.value + g.offset
  {
  }

  /** Exactly when the target channel lets a command take over. */
  lemma TakeoverIsExact(g: Layout, d: Drive)
    requires Seeded(d)
    ensures ProcessTarget(g, d).takeover.Raised? <==>
            d.takeover.Raised? ||
            (g.positionMapped && d.positionCommand.Finite? && d.position.Finite? &&
             -TOLERANCE <= d.positionCommand.value - d.position.value <= TOLERANCE)
  {
  }

  lemma FollowingEnds(g: Layout, d: Drive)
    requires Following(d)
    ensures EndOfPass(g, d).state == OperationEnabled ==> Following(EndOfPass(g, d))
  {
    hide Decode;
  }

  lemma FollowingChannel(g: Layout, d: Drive, channel: Channel, word: Word, raw: int)
    requires Following(d)
    ensures Following(ProcessChannel(g, d, channel, word, raw))
  {
    hide Enables, ControlWritten, TargetWritten, CommandIsClose;
  }

  /** Whatever happens to the drive, following ends only with the session. */
  lemma FollowingStep(g: Layout, d: Drive, e: Event)
    requires Can(g, e) && Following(d)
    ensures Next(g, d, e).state == OperationEnabled ==> Following(Next(g, d, e))
  {
    if e.Channel? {
      hide EndOfPass, ProcessChannel, Following;
      FollowingChannel(g, d, g.channels[e.index], e.word, e.raw);
      var m := ProcessChannel(g, d, g.channels[e.index], e.word, e.raw);
      if e.index == |g.channels| - 1 { FollowingEnds(g, m); }
    }
  }

  lemma {:induction false} FollowingLasts(g: Layout, drives: seq<Drive>, events: seq<Event>, i: nat, n: nat)
    requires IsRun(g, drives, events) && i <= n < |drives| && Following(drives[i]) && SameSession(drives, i, n)
    ensures Following(drives[n])
  {
    hide Next, Init, Can;
    if i < n {
      FollowingLasts(g, drives, events, i, n - 1);
      FollowingStep(g, drives[n - 1], events[n - 1]);
    }
  }

  lemma EndKeepsTarget(g: Layout, d: Drive)
    ensures EndOfPass(g, d).targetPdo == d.targetPdo
  {
    hide Decode;
  }

  /** In every run: once a close command was served in a seeded session (step i),
      each target served later in the session with a finite command (step n) is
      that command, scaled. */
  lemma ControllerIsFollowed(g: Layout, drives: seq<Drive>, events: seq<Event>, i: nat, n: nat)
    requires IsRun(g, drives, events) && i <= n < |events| && SameSession(drives, i, n)
    requires Seeded(drives[i]) && CommandIsClose(g, drives[i]) && Serves(g, events[i], TargetPosition)
    requires Serves(g, events[n], TargetPosition) && drives[n].positionCommand.Finite?
    ensures drives[n + 1].targetPdo == g.factor * drives[n].positionCommand.value + g.offset
  {
    hide Init, SameSession, EndOfPass, GateTarget, WriteTarget, TargetWritten;
    var d, e := drives[n], events[n];
    assert drives[n + 1] == Next(g, d, e);
    if n > i {
      CommandIsFollowed(g, drives[i]);
      FirstFollows(g, drives, events, i, n);
      FollowingLasts(g, drives, events, i + 1, n);
    }
    CommandIsFollowed(g, d);
    EndKeepsTarget(g, ProcessTarget(g, d));
    hide Next;
  }

  lemma FirstFollows(g: Layout, drives: seq<Drive>, events: seq<Event>, i: nat, n: nat)
    requires IsRun(g, drives, events) && i < n < |events| && SameSession(drives, i, n)
    requires Serves(g, events[i], TargetPosition) && drives[i].state == OperationEnabled
    requires Following(ProcessTarget(g, drives[i]))
    ensures Following(drives[i + 1]) && SameSession(drives, i + 1, n)
  {
    hide Init, EndOfPass, ProcessTarget;
    assert drives[i + 1] == Next(g, drives[i], events[i]);
    assert drives[i + 1].state == OperationEnabled;
    FollowingEnds(g, ProcessTarget(g, drives[i]));
  }

  /** A sent preload lasts until the session ends. */
  lemma PreloadLasts(g: Layout, d: Drive, e: Event)
    requires Can(g, e) && d.preloaded.Raised? && Next(g, d, e).preloaded.Lowered?
    ensures Leaves(d, Next(g, d, e))
  {
    if e.Channel? {
      hide EndOfPass, ProcessChannel;
      ChannelKeepsSession(g, d, g.channels[e.index], e.word, e.raw);
      EndKeepsPreload(g, ProcessChannel(g, d, g.channels[e.index], e.word, e.raw));
    }
  }

  lemma ChannelKeepsSession(g: Layout, d: Drive, channel: Channel, word: Word, raw: int)
    ensures var n := ProcessChannel(g, d, channel, word, raw); n.preloaded == d.preloaded && n.state == d.state
  {
    hide Enables, ControlWritten, TargetWritten, CommandIsClose;
  }

  lemma EndKeepsPreload(g: Layout, d: Drive)
    requires d.preloaded.Raised? && EndOfPass(g, d).preloaded.Lowered?
    ensures Leaves(d, EndOfPass(g, d))
  {
    hide Decode;
  }

  /** From the first pass that ends with a new status word on, the state after each
      pass is the one the word shows. */
  lemma PassReadsState(g: Layout, d: Drive, state: DriveState)
    requires d.statusWord != d.lastStatusWord || Shows(d.lastStatusWord, d.state)
    ensures var n := EndOfPass(g, d);
            n.lastStatusWord == d.statusWord && (n.state == state <==> Shows(d.statusWord, state))
  {
    DecodeIsExact(d.statusWord, state);
    DecodeIsExact(d.lastStatusWord, d.state);
    hide Decode, Shows;
  }

  // ---------- The drive object ----------

  class EcCiA402Drive {
    const layout: Layout
    var operational: Flag
    var state: DriveState
    var statusWord: Word
    var lastStatusWord: Word
    var actualPositionSeen: Flag
    var lastPosition: Number
    var lastPositionRaw: Number
    var targetPositionPreloaded: Flag
    var targetPositionPreloadPending: Flag
    var targetPositionPreloadRaw: Number
    var positionCommandSynchronized: Flag
    var positionCommandTakeoverAllowed: Flag
    var controlDefault: Request
    var controlOverride: Flag
    var targetDefault: Number
    var targetOverride: Flag
    var controlCommand: Request
    var positionCommand: Number
    var controlPdo: Word
    var targetPdo: real

    ghost function Now(): Drive
      reads this
    {
      Drive(operational, state, statusWord, lastStatusWord, actualPositionSeen, lastPosition, lastPositionRaw,
            targetPositionPreloaded, targetPositionPreloadPending, targetPositionPreloadRaw,
            positionCommandSynchronized, positionCommandTakeoverAllowed, controlDefault, controlOverride,
            targetDefault, targetOverride, controlCommand, positionCommand, controlPdo, targetPdo)
    }

    constructor (layout: Layout)
      ensures this.layout == layout && Init(layout, Now())
    {
      this.layout := layout;
      operational, state, statusWord, lastStatusWord := Lowered, Unknown, 0, 0xFFFF;
      actualPositionSeen, lastPosition, lastPositionRaw := Lowered, NotFinite, NotFinite;
      targetPositionPreloaded, targetPositionPreloadPending, targetPositionPreloadRaw := Lowered, Lowered, NotFinite;
      positionCommandSynchronized, positionCommandTakeoverAllowed := Lowered, Lowered;
      controlDefault, controlOverride, targetDefault, targetOverride :=
        layout.controlDefault, Lowered, NotFinite, Lowered;
      controlCommand, positionCommand, controlPdo, targetPdo := Silent, NotFinite, 0, 0.0;
    }

    method ProcessControlWord()
      modifies this
      ensures Now() == WriteControl(layout, GateControl(layout, old(Now())))
    {
      hide Enables;
      if operational.Raised? {
        controlOverride := Lowered;
        if layout.controlMapped && controlCommand.Request? {
          if !targetPositionPreloaded.Raised? && Enables(controlCommand.word) {
            controlDefault := Request(0x0007);
            controlOverride := Raised;
          }
        }
      }
      if layout.controlMapped && controlCommand.Request? && !controlOverride.Raised? {
        controlPdo := controlCommand.word;
      } else if controlDefault.Request? {
        controlPdo := controlDefault.word;
      }
    }

    /** The decision of the target channel, before anything is written. */
    method GateTargetPosition() returns (preloadRequested: bool)
      modifies this
      ensures Now() == GateTarget(layout, old(Now()))
      ensures preloadRequested <==> PreloadRequested(old(Now()))
    {
      hide CommandIsClose;
      preloadRequested := false;
      if actualPositionSeen.Raised? && lastPositionRaw.Finite? {
        if state != OperationEnabled {
          targetDefault := lastPositionRaw;
          targetOverride := Raised;
          preloadRequested := true;
        } else {
          HoldOrRelease();
        }
      } else {
        targetDefault := NotFinite;
        targetOverride := Raised;
      }
    }

    method HoldOrRelease()
      requires actualPositionSeen.Raised? && lastPositionRaw.Finite? && state == OperationEnabled
      modifies this
      ensures Now() == GateTarget(layout, old(Now()))
    {
      if !positionCommandTakeoverAllowed.Raised? && layout.positionMapped &&
         positionCommand.Finite? && lastPosition.Finite? &&
         Distance(positionCommand.value, lastPosition.value) <= TOLERANCE {
        positionCommandTakeoverAllowed := Raised;
      }
      positionCommandSynchronized := positionCommandTakeoverAllowed;
      targetDefault := targetPositionPreloadRaw;
      targetOverride := RaisedIf(!targetPositionPreloaded.Raised? || !positionCommandTakeoverAllowed.Raised?);
    }

    method ProcessTargetPosition()
      modifies this
      ensures Now() == ProcessTarget(layout, old(Now()))
    {
      var preloadWriteRequested := GateTargetPosition();
      hide GateTarget;
      var written := targetDefault;
      if layout.positionMapped && positionCommand.Finite? && !targetOverride.Raised? {
        written := Finite(Scaled(layout.factor, layout.offset, positionCommand.value));
      }
      if written.Finite? {
        targetPdo := written.value;
      }
      if preloadWriteRequested {
        targetPositionPreloadPending := Raised;
        targetPositionPreloadRaw := written;
      }
    }

    method ProcessActualPosition(raw: int)
      modifies this
      ensures Now() == ProcessActual(layout, old(Now()), raw)
    {
      lastPositionRaw := Finite(raw as real);
      lastPosition := Finite(Scaled(layout.actualFactor, layout.actualOffset, raw as real));
      actualPositionSeen := Raised;
    }

    method ForgetPreload()
      modifies this
      ensures Now() == old(Now()).(preloaded := Lowered, pending := Lowered, preloadRaw := NotFinite)
    {
      targetPositionPreloaded := Lowered;
      targetPositionPreloadPending := Lowered;
      targetPositionPreloadRaw := NotFinite;
    }

    method ResetEnableSession()
      modifies this
      ensures Now() == ResetSession(layout, old(Now()))
    {
      ForgetPreload();
      positionCommandSynchronized := Lowered;
      positionCommandTakeoverAllowed := Lowered;
      if layout.positionMapped {
        positionCommand := NotFinite;
      }
    }

    method CheckStateChange()
      modifies this
      ensures Now() == EndOfPass(layout, old(Now()))
    {
      hide ResetSession, Decode;
      var previousState := state;
      if statusWord != lastStatusWord {
        state := Decode(statusWord);
      }
      lastStatusWord := statusWord;
      if previousState == OperationEnabled && state != OperationEnabled {
        ResetEnableSession();
      }
    }

    method ProcessData(index: nat, word: Word, raw: int)
      requires index < |layout.channels|
      modifies this
      ensures Now() == Process(layout, old(Now()), index, word, raw)
    {
      hide ProcessTarget, GateControl, WriteControl, ProcessActual, EndOfPass;
      match layout.channels[index] {
        case ControlWord => ProcessControlWord();
        case TargetPosition => ProcessTargetPosition();
        case ActualPosition => ProcessActualPosition(raw);
        case StatusWord => statusWord := word;
        case Other =>
      }
      if index == |layout.channels| - 1 {
        CheckStateChange();
      }
    }

    method OnPdoCycleSent()
      modifies this
      ensures Now() == Sent(old(Now()))
    {
      if targetPositionPreloadPending.Raised? {
        targetPositionPreloaded := Raised;
        targetPositionPreloadPending := Lowered;
      }
    }
  }
}
