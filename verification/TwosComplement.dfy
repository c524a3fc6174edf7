/** The 32-bit signed arithmetic of C and Java. */
module TwosComplement {

  /** The 32-bit value congruent to i. */
  function Wrap(i: int): (r: int)
    ensures -0x8000_0000 <= r < 0x8000_0000
  {
    (i + 0x8000_0000) % 0x1_0000_0000 - 0x8000_0000
  }

  /** That, and its range, determine it. */
  lemma {:induction false} WrapCongruent(i: int)
    ensures (Wrap(i) - i) % 0x1_0000_0000 == 0
  {
  }

  lemma {:induction false} WrapSmall(i: int)
    requires -0x8000_0000 <= i < 0x8000_0000
    ensures Wrap(i) == i
  {
  }

  lemma {:induction false} WrapAdd(a: int, b: int)
    ensures Wrap(Wrap(a) + b) == Wrap(a + b)
  {
  }
}
