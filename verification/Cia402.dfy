/** The CiA 402 power state machine as the enable manager reads it from a
    16-bit status word. */
module Cia402 {
  import opened Values
  import opened WordBits

  datatype DriveState =
    | NotReady
    | SwitchOnDisabled
    | ReadyToSwitchOn
    | SwitchedOn
    | OperationEnabled
    | QuickStopActive
    | FaultReactionActive
    | Fault
    | Unknown

  function Decode(word: Word): DriveState {
    if word & 0x004F == 0x0000 then NotReady
    else if word & 0x004F == 0x0040 then SwitchOnDisabled
    else if word & 0x006F == 0x0021 then ReadyToSwitchOn
    else if word & 0x006F == 0x0023 then SwitchedOn
    else if word & 0x006F == 0x0027 then OperationEnabled
    else if word & 0x006F == 0x0007 then QuickStopActive
    else if word & 0x004F == 0x000F then FaultReactionActive
    else if word & 0x004F == 0x0008 then Fault
    else Unknown
  }

  predicate IsFault(state: DriveState) {
    state == Fault || state == FaultReactionActive
  }

  // ---------- The states by their status bits (section 10 of CiA DSP 402 V2.0) ----------

  /** Bits 0 to 3 of the word: ready to switch on, switched on, operation enabled, fault. */
  predicate LowBits(word: Word, ready: bool, on: bool, enabled: bool, fault: bool) {
    Bit(word, 0) == ready && Bit(word, 1) == on && Bit(word, 2) == enabled && Bit(word, 3) == fault
  }

  /** The word of a drive in this state: bit 5 is up unless a quick stop is
      active, bit 6 is up if switching on is disabled, and all other bits are free. */
  predicate Shows(word: Word, state: DriveState)
    decreases state == Unknown
  {
    match state
    case NotReady => LowBits(word, false, false, false, false) && !Bit(word, 6)
    case SwitchOnDisabled => LowBits(word, false, false, false, false) && Bit(word, 6)
    case ReadyToSwitchOn => LowBits(word, true, false, false, false) && Bit(word, 5) && !Bit(word, 6)
    case SwitchedOn => LowBits(word, true, true, false, false) && Bit(word, 5) && !Bit(word, 6)
    case OperationEnabled => LowBits(word, true, true, true, false) && Bit(word, 5) && !Bit(word, 6)
    case QuickStopActive => LowBits(word, true, true, true, false) && !Bit(word, 5) && !Bit(word, 6)
    case FaultReactionActive => LowBits(word, true, true, true, true) && !Bit(word, 6)
    case Fault => LowBits(word, false, false, false, true) && !Bit(word, 6)
    case Unknown =>
      !Shows(word, NotReady) && !Shows(word, SwitchOnDisabled) && !Shows(word, ReadyToSwitchOn) &&
      !Shows(word, SwitchedOn) && !Shows(word, OperationEnabled) && !Shows(word, QuickStopActive) &&
      !Shows(word, FaultReactionActive) && !Shows(word, Fault)
  }

  /** Every word is decoded to exactly the state it shows. */
  lemma DecodeIsExact(word: Word, state: DriveState)
    ensures Decode(word) == state <==> Shows(word, state)
  {
  }
}
