/** The 16-bit word operations of the PLC bridge, bit by bit. */
module PlcLogic {
  import opened Values
  import opened WordBits

  /** Left solenoid, right solenoid, vacuum pump. */
  predicate Supported(bit: nat) {
    bit <= 2
  }

  function EnableRemoteControl(word: Word): Word {
    word | 1
  }

  function SetOutputBit(word: Word, bit: nat, enabled: bool): Word
    requires Supported(bit)
  {
    SetMask(word, Mask(bit), enabled)
  }

  function SetMask(word: Word, mask: Word, enabled: bool): Word {
    if enabled then word | mask else word & !mask
  }

  predicate OutputMatches(command: Word, status: Word, bit: nat, expected: bool)
    requires Supported(bit)
  {
    var expectedBit := if expected then Mask(bit) else 0;
    command & Mask(bit) == expectedBit && status & Mask(bit) == expectedBit
  }

  lemma SetMaskBits(word: Word, mask: Word, other: Word, enabled: bool)
    requires mask != 0
    ensures Overlaps(SetMask(word, mask, enabled), mask) <==> enabled
    ensures !Overlaps(mask, other) ==> (Overlaps(SetMask(word, mask, enabled), other) <==> Overlaps(word, other))
  {
    hide Overlaps;
    if enabled {
      Raising(word, mask);
      if !Overlaps(mask, other) {
        RaisingKeeps(word, mask, other);
      }
    } else {
      Lowering(word, mask);
      if !Overlaps(mask, other) {
        LoweringKeeps(word, mask, other);
      }
    }
  }

  lemma Raising(word: Word, mask: Word)
    requires mask != 0
    ensures Overlaps(word | mask, mask)
  {
    assert (word | mask) & mask == mask;
  }

  lemma RaisingKeeps(word: Word, mask: Word, other: Word)
    requires !Overlaps(mask, other)
    ensures Overlaps(word | mask, other) <==> Overlaps(word, other)
  {
    hide Common;
    CommonOfRaised(word, mask, other);
  }

  lemma Lowering(word: Word, mask: Word)
    ensures !Overlaps(word & !mask, mask)
  {
    assert (word & !mask) & mask == 0;
  }

  lemma LoweringKeeps(word: Word, mask: Word, other: Word)
    requires !Overlaps(mask, other)
    ensures Overlaps(word & !mask, other) <==> Overlaps(word, other)
  {
    hide Common;
    CommonOfLowered(word, mask, other);
  }

  lemma CommonOfRaised(word: Word, mask: Word, other: Word)
    ensures Common(mask, other) == 0 ==> Common(word | mask, other) == Common(word, other)
  {
  }

  lemma CommonOfLowered(word: Word, mask: Word, other: Word)
    ensures Common(mask, other) == 0 ==> Common(word & !mask, other) == Common(word, other)
  {
  }

  lemma RemoteMask(word: Word)
    ensures EnableRemoteControl(word) == SetMask(word, Mask(0), true)
  {
  }

  lemma RemoteControlBits(word: Word, index: nat)
    requires index < 16
    ensures Bit(EnableRemoteControl(word), index) <==> index == 0 || Bit(word, index)
  {
    hide Mask, SetMask, Overlaps, EnableRemoteControl;
    RemoteMask(word);
    MasksAreApart(0, index);
    SetMaskBits(word, Mask(0), Mask(index), true);
  }

  /** Writing an output changes that output and no other bit of the word. */
  lemma OutputBits(word: Word, bit: nat, enabled: bool, index: nat)
    requires Supported(bit) && index < 16
    ensures Bit(SetOutputBit(word, bit, enabled), index) <==> if index == bit then enabled else Bit(word, index)
  {
    hide Mask, SetMask, Overlaps;
    MasksAreApart(bit, index);
    SetMaskBits(word, Mask(bit), Mask(index), enabled);
  }

  lemma MatchesMeansBits(command: Word, status: Word, bit: nat, expected: bool)
    requires Supported(bit)
    ensures OutputMatches(command, status, bit, expected) <==>
            Bit(command, bit) == expected && Bit(status, bit) == expected
  {
    hide Mask, Overlaps;
    MasksAreApart(bit, bit);
    MaskedIsBit(command, bit);
    MaskedIsBit(status, bit);
  }

  lemma MaskedIsBit(word: Word, bit: nat)
    requires Supported(bit)
    ensures word & Mask(bit) == if Bit(word, bit) then Mask(bit) else 0
  {
  }
}
