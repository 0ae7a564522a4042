/** Repair of the remote-control bit and verified writes of output bits, against
    a PLC that may lose, ignore or fail to answer any request. */
module PlcRuntime {
  import opened Values
  import opened WordBits
  import opened PlcLogic

  datatype Error = IoError | ControlError | ValueError

  /** What becomes of a request: served; lost before or after the PLC acted on
      it, either of which the client sees as an I/O error; or acknowledged but
      not acted on. */
  datatype Fate = Served | LostBefore | LostAfter | Ignored

  /** The two registers the bridge writes. */
  datatype Bank = Bank(command: Word, control: Word)

  /** A request the bridge made, whether it was acknowledged, and the word that a
      read returned. */
  datatype Request = Connected(ok: bool) | Read(address: nat, ok: bool, word: Word) | Wrote(address: nat, ok: bool)

  /** Every request since `before` but possibly the last was acknowledged. */
  ghost predicate StopsAtFailure(before: seq<Request>, after: seq<Request>) {
    before <= after && forall i | |before| <= i < |after| - 1 :: after[i].ok
  }

  /** Every request since `before` was acknowledged. */
  ghost predicate Clean(before: seq<Request>, after: seq<Request>) {
    before <= after && forall i | |before| <= i < |after| :: after[i].ok
  }

  /** Some request since `before` was a write to the register. */
  ghost predicate Writes(before: seq<Request>, after: seq<Request>, address: nat) {
    exists i | |before| <= i < |after| :: after[i].Wrote? && after[i].address == address
  }

  /** The PLC at the other end of the line.  It keeps what is written to the
      command and the control register; all other registers are its own. */
  class Plc {
    const commandRegister: nat
    const controlRegister: nat
    const fate: nat -> Fate
    const others: nat -> Word
    const delay: nat -> real
    var command: Word
    var control: Word
    var requests: nat
    var now: real
    ghost var trace: seq<Request>

    ghost predicate Valid()
      reads this
    {
      commandRegister != controlRegister
    }

    ghost function Registers(): Bank
      reads this
    {
      Bank(command, control)
    }

    constructor (commandRegister: nat, controlRegister: nat, fate: nat -> Fate, others: nat -> Word,
                 delay: nat -> real, start: Bank)
      requires commandRegister != controlRegister
      ensures Valid() && Registers() == start
    {
      this.commandRegister, this.controlRegister := commandRegister, controlRegister;
      this.fate, this.others, this.delay := fate, others, delay;
      command, control, requests, now := start.command, start.control, 0, 0.0;
      trace := [];
    }

    method Pass()
      modifies this`requests, this`now
      ensures now >= old(now) && requests == old(requests) + 1
    {
      now := if delay(requests) > 0.0 then now + delay(requests) else now;
      requests := requests + 1;
    }

    method ReadHoldingRegister(address: nat) returns (r: Result<Word, Error>)
      modifies this`requests, this`now, this`trace
      ensures now >= old(now) && trace == old(trace) + [Read(address, r.Ok?, if r.Ok? then r.value else 0)]
      ensures r.Ok? && address == commandRegister ==> r.value == command
      ensures r.Ok? && address == controlRegister && commandRegister != controlRegister ==> r.value == control
      ensures r.Err? ==> r.error == IoError
    {
      if fate(requests).LostBefore? || fate(requests).LostAfter? {
        r := Err(IoError);
      } else if address == commandRegister {
        r := Ok(command);
      } else if address == controlRegister {
        r := Ok(control);
      } else {
        r := Ok(others(requests));
      }
      trace := trace + [Read(address, r.Ok?, if r.Ok? then r.value else 0)];
      Pass();
    }

    method WriteSingleRegister(address: nat, value: Word) returns (r: Result<(), Error>, ghost applied: bool)
      modifies this
      ensures now >= old(now) && trace == old(trace) + [Wrote(address, r.Ok?)]
      ensures r.Err? ==> r.error == IoError
      ensures applied ==> address == commandRegister || address == controlRegister
      ensures !applied ==> Registers() == old(Registers())
      ensures applied && address == commandRegister ==> Registers() == old(Registers()).(command := value)
      ensures applied && address == controlRegister && commandRegister != controlRegister ==>
                Registers() == old(Registers()).(control := value)
    {
      applied := false;
      var fated := fate(requests);
      if fated.Served? || fated.LostAfter? {
        if address == commandRegister {
          command, applied := value, true;
        } else if address == controlRegister {
          control, applied := value, true;
        }
      }
      r := if fated.LostBefore? || fated.LostAfter? then Err(IoError) else Ok(());
      trace := trace + [Wrote(address, r.Ok?)];
      Pass();
    }

    method Connect() returns (connected: bool)
      modifies this`requests, this`now, this`trace
      ensures now >= old(now) && trace == old(trace) + [Connected(connected)]
    {
      connected := fate(requests).Served?;
      trace := trace + [Connected(connected)];
      Pass();
    }

    method Sleep(seconds: real)
      requires seconds > 0.0
      modifies this`requests, this`now
      ensures now >= old(now) + seconds
    {
      Pass();
      now := now + seconds;
    }
  }

  /** Either the remote-control bit was set already or it was set alone; an error
      the PLC itself causes means that its acknowledged write had no effect. */
  method RepairRemoteControl(plc: Plc) returns (r: Result<bool, Error>, ghost repaired: bool)
    requires plc.Valid()
    modifies plc
    ensures plc.now >= old(plc.now)
    ensures plc.Registers() ==
            if repaired then old(plc.Registers()).(control := EnableRemoteControl(old(plc.control)))
            else old(plc.Registers())
    ensures r.Ok? ==> Bit(plc.control, 0) && r.value == repaired && (repaired <==> !Bit(old(plc.control), 0))
    ensures r == Err(ControlError) ==> !repaired && !Bit(plc.control, 0)
    ensures r != Err(ValueError)
    ensures StopsAtFailure(old(plc.trace), plc.trace) && !Writes(old(plc.trace), plc.trace, plc.commandRegister)
    ensures r == Err(IoError) <==> !Clean(old(plc.trace), plc.trace)
  {
    hide Bit, EnableRemoteControl;
    repaired := false;
    var currentWord := plc.ReadHoldingRegister(plc.controlRegister);
    if currentWord.Err? {
      assert !plc.trace[|plc.trace| - 1].ok;
      return Err(currentWord.error), repaired;
    }
    var desiredWord := EnableRemoteControl(currentWord.value);
    RepairIsNeeded(currentWord.value);
    if desiredWord == currentWord.value {
      return Ok(false), repaired;
    }
    var written;
    written, repaired := plc.WriteSingleRegister(plc.controlRegister, desiredWord);
    if written.Err? {
      assert !plc.trace[|plc.trace| - 1].ok;
      return Err(written.error), repaired;
    }
    var readback := plc.ReadHoldingRegister(plc.controlRegister);
    if readback.Err? {
      assert !plc.trace[|plc.trace| - 1].ok;
      return Err(readback.error), repaired;
    }
    if !Bit(readback.value, 0) || readback.value != desiredWord {
      return Err(ControlError), repaired;
    }
    r := Ok(true);
  }

  lemma RepairIsNeeded(word: Word)
    ensures EnableRemoteControl(word) == word <==> Bit(word, 0)
    ensures Bit(EnableRemoteControl(word), 0)
  {
  }

  // ---------- Verified output ----------

  function Ceil(x: real): (r: int)
    ensures r as real >= x && r as real < x + 1.0
  {
    -(-x).Floor
  }

  predicate ValidTiming(timeout: Number, period: Number) {
    timeout.Finite? && timeout.value >= 0.0 && period.Finite? && period.value > 0.0
  }

  /** At least this long is slept in so many rounds, unless time is up. */
  function Slept(rounds: nat, period: real): real {
    rounds as real * period
  }

  lemma SleepsFit(sleeps: nat, period: real, timeout: real)
    requires period > 0.0 && Slept(sleeps, period) < timeout
    ensures sleeps + 1 <= Ceil(timeout / period)
    ensures Slept(sleeps + 1, period) == Slept(sleeps, period) + period
  {
    var rounds := timeout / period;
    assert rounds * period == timeout;
    assert sleeps as real < rounds;
  }

  datatype Readback = Readback(command: Word, status: Word)

  /** One bit of the command word is written and then both the command and the
      physical state are read until they agree or time is up. */
  method WriteOutputBit(plc: Plc, bit: nat, enabled: bool, statusRegister: nat, timeout: Number, period: Number)
    returns (r: Result<Readback, Error>, ghost written: bool, ghost rounds: nat)
    requires plc.Valid() && statusRegister != plc.commandRegister && statusRegister != plc.controlRegister
    modifies plc
    ensures plc.now >= old(plc.now)
    ensures plc.Registers() ==
            if written && Supported(bit)
            then old(plc.Registers()).(command := SetOutputBit(old(plc.command), bit, enabled))
            else old(plc.Registers())
    ensures written ==> Supported(bit) && ValidTiming(timeout, period)
    ensures r.Ok? ==>
              Supported(bit) && r.value.command == plc.command &&
              Bit(plc.command, bit) == enabled && Bit(r.value.status, bit) == enabled
    ensures !ValidTiming(timeout, period) ==> r == Err(ValueError)
    ensures bit > 2 ==> !written && (r == Err(ValueError) || r == Err(IoError))
    ensures bit <= 2 && ValidTiming(timeout, period) ==> r != Err(ValueError)
    ensures r == Err(ValueError) ==> !written && (ValidTiming(timeout, period) ==> !Supported(bit))
    ensures r == Err(ControlError) ==> plc.now >= old(plc.now) + timeout.value
    ensures StopsAtFailure(old(plc.trace), plc.trace) && !Writes(old(plc.trace), plc.trace, plc.controlRegister)
    ensures ValidTiming(timeout, period) ==> rounds <= Ceil(timeout.value / period.value) + 1
  {
    hide Bit, SetOutputBit, OutputMatches, Ceil;
    written, rounds := false, 0;
    if !ValidTiming(timeout, period) {
      return Err(ValueError), written, rounds;
    }
    NoNegativeRounds(timeout.value, period.value);
    var currentWord := plc.ReadHoldingRegister(plc.commandRegister);
    if currentWord.Err? {
      return Err(currentWord.error), written, rounds;
    }
    if !Supported(bit) {
      return Err(ValueError), written, rounds;
    }
    var desiredWord := SetOutputBit(currentWord.value, bit, enabled);
    var acknowledged;
    acknowledged, written := plc.WriteSingleRegister(plc.commandRegister, desiredWord);
    if acknowledged.Err? {
      return Err(acknowledged.error), written, rounds;
    }
    r, rounds := VerifyOutput(plc, bit, enabled, statusRegister, timeout.value, period.value);
  }

  /** The reading and waiting that follow the write. */
  method VerifyOutput(plc: Plc, bit: nat, enabled: bool, statusRegister: nat, timeout: real, period: real)
    returns (r: Result<Readback, Error>, ghost rounds: nat)
    requires plc.Valid() && statusRegister != plc.commandRegister && statusRegister != plc.controlRegister
    requires Supported(bit) && timeout >= 0.0 && period > 0.0
    modifies plc`requests, plc`now, plc`trace
    ensures plc.now >= old(plc.now)
    ensures r.Ok? ==>
              r.value.command == plc.command &&
              Bit(plc.command, bit) == enabled && Bit(r.value.status, bit) == enabled
    ensures r == Err(ControlError) ==> plc.now >= old(plc.now) + timeout
    ensures r != Err(ValueError)
    ensures StopsAtFailure(old(plc.trace), plc.trace) && !Writes(old(plc.trace), plc.trace, plc.controlRegister)
    ensures rounds <= Ceil(timeout / period) + 1
  {
    assert Slept(0, period) == 0.0;
    hide Bit, OutputMatches, Ceil, Slept;
    NoNegativeRounds(timeout, period);
    var deadline := plc.now + timeout;
    rounds := 0;
    while true
      invariant plc.now >= old(plc.now)
      invariant Clean(old(plc.trace), plc.trace) && !Writes(old(plc.trace), plc.trace, plc.controlRegister)
      invariant rounds <= Ceil(timeout / period)
      invariant plc.now >= deadline || plc.now >= deadline - timeout + Slept(rounds, period)
      decreases Ceil(timeout / period) - rounds
    {
      var command := plc.ReadHoldingRegister(plc.commandRegister);
      if command.Err? {
        return Err(command.error), rounds + 1;
      }
      var status := plc.ReadHoldingRegister(statusRegister);
      if status.Err? {
        return Err(status.error), rounds + 1;
      }
      MatchesMeansBits(command.value, status.value, bit, enabled);
      if OutputMatches(command.value, status.value, bit, enabled) {
        return Ok(Readback(command.value, status.value)), rounds + 1;
      }
      var remaining := deadline - plc.now;
      if remaining <= 0.0 {
        return Err(ControlError), rounds + 1;
      }
      SleepsFit(rounds, period, timeout);
      rounds := rounds + 1;
      plc.Sleep(if period < remaining then period else remaining);
    }
  }

  lemma NoNegativeRounds(timeout: real, period: real)
    requires timeout >= 0.0 && period > 0.0
    ensures Ceil(timeout / period) >= 0
  {
    assert timeout / period >= 0.0;
  }
}
