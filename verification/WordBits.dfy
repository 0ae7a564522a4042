/** The bits of a 16-bit word. */
module WordBits {
  import opened Values

  function Mask(index: nat): Word
    requires index < 16
  {
    match index
    case 0 => 0x0001 case 1 => 0x0002 case 2 => 0x0004 case 3 => 0x0008
    case 4 => 0x0010 case 5 => 0x0020 case 6 => 0x0040 case 7 => 0x0080
    case 8 => 0x0100 case 9 => 0x0200 case 10 => 0x0400 case 11 => 0x0800
    case 12 => 0x1000 case 13 => 0x2000 case 14 => 0x4000 case _ => 0x8000
  }

  predicate Bit(word: Word, index: nat)
    requires index < 16
  {
    Overlaps(word, Mask(index))
  }

  predicate Overlaps(a: Word, b: Word) {
    Common(a, b) != 0
  }

  function Common(a: Word, b: Word): Word {
    a & b
  }

  /** Bit 0 is worth one, and each bit twice the one before it. */
  lemma MasksDouble(index: nat)
    requires index < 16
    ensures Mask(0) == 1
    ensures index > 0 ==> Mask(index) as nat == 2 * Mask(index - 1) as nat
  {
  }

  lemma MasksAreApart(i: nat, j: nat)
    requires i < 16 && j < 16
    ensures Mask(i) != 0 && (i != j ==> !Overlaps(Mask(i), Mask(j)))
  {
  }
}
