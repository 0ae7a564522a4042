/** The PLC bridge node: service calls and polls, one at a time under its lock,
    and what any sequence of them leaves of the two registers. */
module PlcNode {
  import opened Values
  import opened WordBits
  import opened PlcLogic
  import opened PlcRuntime

  /** What a locked call does to the registers.  `repaired` and `written` say
      which of its writes took effect. */
  datatype Call =
    | Service(bit: nat, enabled: bool, repaired: bool, written: bool)
    | Poll(repaired: bool)

  function Next(bank: Bank, call: Call): Bank {
    Bank(if call.Service? && call.written && Supported(call.bit)
         then SetOutputBit(bank.command, call.bit, call.enabled) else bank.command,
         if call.repaired then EnableRemoteControl(bank.control) else bank.control)
  }

  /** An output is written only with remote control enabled. */
  predicate Legal(bank: Bank, call: Call) {
    call.Service? && call.written ==> Supported(call.bit) && Bit(Next(bank, call).control, 0)
  }

  datatype Snapshot = Snapshot(leftVacuum: bool, rightVacuum: bool, leftSolenoid: bool, rightSolenoid: bool,
                               pump: bool, alarm: Word)

  function DecodeSnapshot(inputs: Word, outputs: Word, alarm: Word): Snapshot {
    Snapshot(Bit(inputs, 0), Bit(inputs, 1), Bit(outputs, 0), Bit(outputs, 1), Bit(outputs, 2), alarm)
  }

  class PlcNode {
    const plc: Plc
    const statusRegister: nat
    const inputRegister: nat
    const alarmRegister: nat
    const verifyTimeout: Number
    const verifyPeriod: Number
    const reconnectPeriod: real
    var connected: bool
    var lastConnectAttempt: Option<real>
    var snapshot: Snapshot
    var lastUpdate: Option<real>
    var lastError: Option<Error>

    ghost predicate Valid()
      reads this, plc
    {
      plc.Valid() && statusRegister != plc.commandRegister && statusRegister != plc.controlRegister
    }

    constructor (plc: Plc, statusRegister: nat, inputRegister: nat, alarmRegister: nat,
                 verifyTimeout: Number, verifyPeriod: Number, reconnectPeriod: real)
      requires plc.Valid() && statusRegister != plc.commandRegister && statusRegister != plc.controlRegister
      ensures Valid() && this.plc == plc && !connected && lastUpdate == None
    {
      this.plc := plc;
      this.statusRegister, this.inputRegister, this.alarmRegister := statusRegister, inputRegister, alarmRegister;
      this.verifyTimeout, this.verifyPeriod, this.reconnectPeriod := verifyTimeout, verifyPeriod, reconnectPeriod;
      connected, lastConnectAttempt, lastUpdate, lastError := false, None, None, None;
      snapshot := Snapshot(false, false, false, false, false, 0);
    }

    method EnsureClient(force: bool) returns (available: bool)
      requires Valid()
      modifies this, plc`requests, plc`now, plc`trace
      ensures Valid() && available == connected && (old(connected) ==> connected)
      ensures snapshot == old(snapshot) && lastUpdate == old(lastUpdate) && plc.now >= old(plc.now)
      ensures StopsAtFailure(old(plc.trace), plc.trace) && (connected ==> Clean(old(plc.trace), plc.trace))
      ensures !Writes(old(plc.trace), plc.trace, plc.commandRegister)
      ensures var due := force || old(lastConnectAttempt).None? ||
                old(plc.now) - old(lastConnectAttempt).value >= reconnectPeriod;
              if old(connected) || !due then
                connected == old(connected) && plc.trace == old(plc.trace) &&
                lastConnectAttempt == old(lastConnectAttempt) && lastError == old(lastError)
              else
                plc.trace == old(plc.trace) + [Connected(connected)] &&
                lastConnectAttempt == Some(old(plc.now)) &&
                lastError == if connected then None else Some(IoError)
    {
      if connected {
        return true;
      }
      if !force && lastConnectAttempt.Some? && plc.now - lastConnectAttempt.value < reconnectPeriod {
        return false;
      }
      lastConnectAttempt := Some(plc.now);
      connected := plc.Connect();
      lastError := if connected then None else Some(IoError);
      available := connected;
    }

    /** A service that reports success wrote the output and saw it in both words.
        Nothing is sent after a request that failed, and no output write after a
        repair that did not leave remote control enabled. */
    method ServiceCallback(bit: nat, enabled: bool) returns (success: bool, ghost call: Call)
      requires Valid() && Supported(bit)
      modifies this, plc
      ensures Valid() && call.Service? && call.bit == bit && call.enabled == enabled
      ensures Legal(old(plc.Registers()), call) && plc.Registers() == Next(old(plc.Registers()), call)
      ensures success <==> lastError == None
      ensures success ==> connected && Bit(plc.command, bit) == enabled && Bit(plc.control, 0)
      ensures lastError == Some(IoError) || lastError == Some(ValueError) ==> !connected
      ensures snapshot == old(snapshot) && lastUpdate == old(lastUpdate)
      ensures StopsAtFailure(old(plc.trace), plc.trace)
      ensures Writes(old(plc.trace), plc.trace, plc.commandRegister) ==> Bit(plc.control, 0)
    {
      hide Bit, SetOutputBit, EnableRemoteControl;
      call := Service(bit, enabled, false, false);
      var available := EnsureClient(true);
      if !available {
        lastError := Some(IoError);
        return false, call;
      }
      var r;
      r, call := RepairAndWrite(bit, enabled);
      connected := r.Ok? || r.error == ControlError;
      lastError := if r.Ok? then None else Some(r.error);
      success := r.Ok?;
    }

    /** What a service call asks of the PLC. */
    method RepairAndWrite(bit: nat, enabled: bool) returns (r: Result<Readback, Error>, ghost call: Call)
      requires Valid() && Supported(bit)
      modifies plc
      ensures Valid() && call.Service? && call.bit == bit && call.enabled == enabled
      ensures Legal(old(plc.Registers()), call) && plc.Registers() == Next(old(plc.Registers()), call)
      ensures r.Ok? ==> Bit(plc.command, bit) == enabled && Bit(plc.control, 0)
      ensures StopsAtFailure(old(plc.trace), plc.trace)
      ensures Writes(old(plc.trace), plc.trace, plc.commandRegister) ==> Bit(plc.control, 0)
    {
      hide Bit, SetOutputBit, EnableRemoteControl;
      var repair, repaired := RepairRemoteControl(plc);
      if repair.Err? {
        return Err(repair.error), Service(bit, enabled, repaired, false);
      }
      ghost var written, rounds;
      r, written, rounds := WriteOutputBit(plc, bit, enabled, statusRegister, verifyTimeout, verifyPeriod);
      call := Service(bit, enabled, repaired, written);
    }

    /** The last three requests read the inputs, the outputs and the alarm, and the
        snapshot is what they returned. */
    predicate Shown(last: seq<Request>, shown: Snapshot) {
      && |last| == 3 && last[0].Read? && last[1].Read? && last[2].Read?
      && last[0].address == inputRegister && last[1].address == statusRegister && last[2].address == alarmRegister
      && shown.leftVacuum == Bit(last[0].word, 0) && shown.rightVacuum == Bit(last[0].word, 1)
      && shown.leftSolenoid == Bit(last[1].word, 0) && shown.rightSolenoid == Bit(last[1].word, 1)
      && shown.pump == Bit(last[1].word, 2) && shown.alarm == last[2].word
    }

    method ReadIoSnapshot() returns (r: Result<Snapshot, Error>)
      requires Valid()
      modifies plc`requests, plc`now, plc`trace
      ensures plc.now >= old(plc.now) && old(plc.trace) < plc.trace
      ensures StopsAtFailure(old(plc.trace), plc.trace) && (r.Ok? <==> plc.trace[|plc.trace| - 1].ok)
      ensures !Writes(old(plc.trace), plc.trace, plc.commandRegister)
      ensures r.Err? ==> r.error == IoError
      ensures r.Ok? ==> |plc.trace| == |old(plc.trace)| + 3 && Shown(plc.trace[|old(plc.trace)|..], r.value)
    {
      hide Bit;
      var inputs := plc.ReadHoldingRegister(inputRegister);
      if inputs.Err? {
        return Err(inputs.error);
      }
      var outputs := plc.ReadHoldingRegister(statusRegister);
      if outputs.Err? {
        return Err(outputs.error);
      }
      var alarm := plc.ReadHoldingRegister(alarmRegister);
      if alarm.Err? {
        return Err(alarm.error);
      }
      r := Ok(DecodeSnapshot(inputs.value, outputs.value, alarm.value));
    }

    /** A poll never touches an output.  It keeps the last snapshot and closes the
        connection when the status cannot be read, which its last request tells.
        The new snapshot shows the words that were read.
        An error of the repair alone leaves the connection open and is reported:
        an I/O error exactly if some request failed, a control error only if
        remote control is still off. */
    method PollOnce() returns (ghost call: Call)
      requires Valid()
      modifies this, plc
      ensures Valid() && call.Poll? && plc.Registers() == Next(old(plc.Registers()), call)
      ensures !Writes(old(plc.trace), plc.trace, plc.commandRegister)
      ensures !connected ==> snapshot == old(snapshot) && lastUpdate == old(lastUpdate)
      ensures connected ==> lastUpdate.Some? && old(plc.now) <= lastUpdate.value <= plc.now
      ensures connected <==> |old(plc.trace)| < |plc.trace| && plc.trace[|plc.trace| - 1].ok
      ensures connected ==> |plc.trace| >= 3 && Shown(plc.trace[|plc.trace| - 3..], snapshot)
      ensures connected ==> (lastError == Some(IoError) <==> !Clean(old(plc.trace), plc.trace))
      ensures connected ==> lastError != Some(ValueError)
      ensures connected && lastError == Some(ControlError) ==> !Bit(plc.control, 0) && !call.repaired
      ensures connected && lastError == None ==> Bit(plc.control, 0)
    {
      hide Bit, EnableRemoteControl, DecodeSnapshot;
      call := Poll(false);
      var available := EnsureClient(false);
      if !available {
        return call;
      }
      var repair, repaired := RepairRemoteControl(plc);
      call := Poll(repaired);
      var remoteError := if repair.Err? then Some(repair.error) else None;
      var r := ReadIoSnapshot();
      if r.Err? {
        lastError := Some(r.error);
        connected := false;
      } else {
        snapshot, lastUpdate, lastError := r.value, Some(plc.now), remoteError;
      }
    }
  }

  // ---------- Runs ----------

  predicate IsRun(banks: seq<Bank>, calls: seq<Call>) {
    && |banks| == |calls| + 1
    && forall i | 0 <= i < |calls| :: Legal(banks[i], calls[i]) && banks[i + 1] == Next(banks[i], calls[i])
  }

  /** The last state an output was set to, if it was ever written. */
  function LastWritten(calls: seq<Call>, bit: nat, initially: bool): bool {
    if calls == [] then initially
    else
      var last := calls[|calls| - 1];
      if last.Service? && last.written && last.bit == bit then last.enabled
      else LastWritten(calls[..|calls| - 1], bit, initially)
  }

  lemma StepBits(bank: Bank, call: Call, index: nat)
    requires Legal(bank, call) && index < 16
    ensures Bit(Next(bank, call).command, index) ==
            if call.Service? && call.written && call.bit == index then call.enabled else Bit(bank.command, index)
    ensures Bit(Next(bank, call).control, index) == ((call.repaired && index == 0) || Bit(bank.control, index))
  {
    hide Bit, SetOutputBit, EnableRemoteControl;
    if call.Service? && call.written {
      OutputBits(bank.command, call.bit, call.enabled, index);
    }
    RemoteControlBits(bank.control, index);
  }

  /** After any run every output bit holds the last request actually written, and
      every other bit of the command word is as it was. */
  lemma {:induction false} OutputsAreLastWritten(banks: seq<Bank>, calls: seq<Call>, index: nat)
    requires IsRun(banks, calls) && index < 16
    ensures Bit(banks[|calls|].command, index) == LastWritten(calls, index, Bit(banks[0].command, index))
    ensures !Supported(index) ==> Bit(banks[|calls|].command, index) == Bit(banks[0].command, index)
  {
    hide Bit, Next;
    if calls != [] {
      var n := |calls| - 1;
      OutputsAreLastWritten(banks[..n + 1], calls[..n], index);
      StepBits(banks[n], calls[n], index);
    }
  }

  /** After any run the control word differs from before at most in bit 0, which
      is never cleared and is set by every written output. */
  lemma {:induction false} ControlIsOnlyEnabled(banks: seq<Bank>, calls: seq<Call>, index: nat)
    requires IsRun(banks, calls) && index < 16
    ensures index > 0 ==> Bit(banks[|calls|].control, index) == Bit(banks[0].control, index)
    ensures Bit(banks[0].control, 0) ==> Bit(banks[|calls|].control, 0)
    ensures (exists i | 0 <= i < |calls| :: calls[i].Service? && calls[i].written) ==> Bit(banks[|calls|].control, 0)
  {
    hide Bit, Next;
    if calls != [] {
      var n := |calls| - 1;
      ControlIsOnlyEnabled(banks[..n + 1], calls[..n], index);
      StepBits(banks[n], calls[n], index);
      StepBits(banks[n], calls[n], 0);
      assert forall i | 0 <= i < n :: calls[..n][i] == calls[i];
    }
  }
}
