/** The functions of section 4.1.2 of FIPS 180-4, bit by bit. */
module WordBits {
  import opened Sha256

  /** Bit `j` of a word, counted from the least significant. */
  predicate BitAt(x: Word, j: Word)
    requires j < 32
  {
    (x >> j) & 1 == 1
  }

  lemma AndBit(x: Word, y: Word, j: Word)
    requires j < 32
    ensures BitAt(And(x, y), j) <==> BitAt(x, j) && BitAt(y, j)
  {
  }

  lemma PlainXorBit(x: Word, y: Word, j: Word)
    requires j < 32
    ensures BitAt(x ^ y, j) <==> BitAt(x, j) != BitAt(y, j)
  {
  }

  lemma XorBit(x: Word, y: Word, j: Word)
    requires j < 32
    ensures BitAt(Xor(x, y), j) <==> BitAt(x, j) != BitAt(y, j)
  {
    hide BitAt;
    PlainXorBit(x, y, j);
  }

  lemma NotBit(x: Word, j: Word)
    requires j < 32
    ensures BitAt(Not(x), j) <==> !BitAt(x, j)
  {
  }

  /** The choice of two bits by a third. */
  lemma ChooseBits(x: Word, y: Word, z: Word, j: Word)
    requires j < 32
    ensures BitAt(Ch(x, y, z), j) == if BitAt(x, j) then BitAt(y, j) else BitAt(z, j)
  {
    hide BitAt, And, Xor, Not;
    AndBit(x, y, j);
    NotBit(x, j);
    AndBit(Not(x), z, j);
    XorBit(And(x, y), And(Not(x), z), j);
  }

  function One(b: bool): nat { if b then 1 else 0 }

  /** Set where at least two of the three are. */
  lemma MajorityBits(x: Word, y: Word, z: Word, j: Word)
    requires j < 32
    ensures BitAt(Maj(x, y, z), j) <==> One(BitAt(x, j)) + One(BitAt(y, j)) + One(BitAt(z, j)) >= 2
  {
    hide BitAt, And, Xor, Not;
    AndBit(x, y, j);
    AndBit(x, z, j);
    AndBit(y, z, j);
    XorBit(And(x, y), And(x, z), j);
    XorBit(Xor(And(x, y), And(x, z)), And(y, z), j);
  }

  predicate Odd(a: bool, b: bool, c: bool) { (One(a) + One(b) + One(c)) % 2 == 1 }

  lemma XorBits(x: Word, y: Word, z: Word, j: Word)
    requires j < 32
    ensures BitAt(Xor(Xor(x, y), z), j) == Odd(BitAt(x, j), BitAt(y, j), BitAt(z, j))
  {
    hide BitAt, Xor;
    XorBit(x, y, j);
    XorBit(Xor(x, y), z, j);
  }

  lemma Rotated2(x: Word, j: Word)
    requires j < 32
    ensures BitAt(RotateRight(x, 2), j) == BitAt(x, (j + 2) % 32)
  {
  }

  lemma Rotated13(x: Word, j: Word)
    requires j < 32
    ensures BitAt(RotateRight(x, 13), j) == BitAt(x, (j + 13) % 32)
  {
  }

  lemma Rotated22(x: Word, j: Word)
    requires j < 32
    ensures BitAt(RotateRight(x, 22), j) == BitAt(x, (j + 22) % 32)
  {
  }

  lemma Rotated6(x: Word, j: Word)
    requires j < 32
    ensures BitAt(RotateRight(x, 6), j) == BitAt(x, (j + 6) % 32)
  {
  }

  lemma Rotated11(x: Word, j: Word)
    requires j < 32
    ensures BitAt(RotateRight(x, 11), j) == BitAt(x, (j + 11) % 32)
  {
  }

  lemma Rotated25(x: Word, j: Word)
    requires j < 32
    ensures BitAt(RotateRight(x, 25), j) == BitAt(x, (j + 25) % 32)
  {
  }

  lemma Rotated7(x: Word, j: Word)
    requires j < 32
    ensures BitAt(RotateRight(x, 7), j) == BitAt(x, (j + 7) % 32)
  {
  }

  lemma Rotated18(x: Word, j: Word)
    requires j < 32
    ensures BitAt(RotateRight(x, 18), j) == BitAt(x, (j + 18) % 32)
  {
  }

  lemma Rotated17(x: Word, j: Word)
    requires j < 32
    ensures BitAt(RotateRight(x, 17), j) == BitAt(x, (j + 17) % 32)
  {
  }

  lemma Rotated19(x: Word, j: Word)
    requires j < 32
    ensures BitAt(RotateRight(x, 19), j) == BitAt(x, (j + 19) % 32)
  {
  }

  lemma Shifted3(x: Word, j: Word)
    requires j < 32
    ensures BitAt(ShiftRight(x, 3), j) == (j < 29 && BitAt(x, (j + 3) % 32))
  {
  }

  lemma Shifted10(x: Word, j: Word)
    requires j < 32
    ensures BitAt(ShiftRight(x, 10), j) == (j < 22 && BitAt(x, (j + 10) % 32))
  {
  }

  /** Each bit of a sigma is the exclusive or of three bits of the word, or of two where one is shifted out. */
  lemma BigSigmaBits(x: Word, j: Word)
    requires j < 32
    ensures BitAt(BigSigma0(x), j) == Odd(BitAt(x, (j + 2) % 32), BitAt(x, (j + 13) % 32), BitAt(x, (j + 22) % 32))
    ensures BitAt(BigSigma1(x), j) == Odd(BitAt(x, (j + 6) % 32), BitAt(x, (j + 11) % 32), BitAt(x, (j + 25) % 32))
  {
    hide RotateRight, ShiftRight, BitAt, Odd, Xor;
    Rotated2(x, j);
    Rotated13(x, j);
    Rotated22(x, j);
    XorBits(RotateRight(x, 2), RotateRight(x, 13), RotateRight(x, 22), j);
    Rotated6(x, j);
    Rotated11(x, j);
    Rotated25(x, j);
    XorBits(RotateRight(x, 6), RotateRight(x, 11), RotateRight(x, 25), j);
  }

  lemma SmallSigmaBits(x: Word, j: Word)
    requires j < 32
    ensures BitAt(SmallSigma0(x), j)
         == Odd(BitAt(x, (j + 7) % 32), BitAt(x, (j + 18) % 32), j < 29 && BitAt(x, (j + 3) % 32))
    ensures BitAt(SmallSigma1(x), j)
         == Odd(BitAt(x, (j + 17) % 32), BitAt(x, (j + 19) % 32), j < 22 && BitAt(x, (j + 10) % 32))
  {
    hide RotateRight, ShiftRight, BitAt, Odd, Xor;
    Rotated7(x, j);
    Rotated18(x, j);
    Shifted3(x, j);
    XorBits(RotateRight(x, 7), RotateRight(x, 18), ShiftRight(x, 3), j);
    Rotated17(x, j);
    Rotated19(x, j);
    Shifted10(x, j);
    XorBits(RotateRight(x, 17), RotateRight(x, 19), ShiftRight(x, 10), j);
  }
}
