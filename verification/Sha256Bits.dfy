/** The word functions of FIPS 180-4, section 4.1.2, bit by bit. */
module Sha256Bits {
  import opened Sha256

  /** Bit i of a word, the lowest first. */
  predicate Bit(x: bv32, i: bv6)
    requires i < 32
  {
    (x >> i) & 1 == 1
  }

  /** The bit n places up, coming round. */
  function Turn(i: bv6, n: bv6): (j: bv6)
    requires i < 32 && n < 32
    ensures j < 32
  {
    (i + n) % 32
  }

  /** The bit n places up, or nothing beyond the top. */
  predicate Above(x: bv32, i: bv6, n: bv6)
    requires i < 32 && n < 32
  {
    i + n < 32 && Bit(x, i + n)
  }

  predicate Odd(a: bool, b: bool, c: bool) {
    (a != b) != c
  }

  lemma ShrBit(x: bv32, n: bv6, i: bv6)
    requires n < 32 && i < 32
    ensures Bit(Shr(x, n), i) == Above(x, i, n)
  {
  }

  lemma ShlBit(x: bv32, n: bv6, i: bv6)
    requires n < 32 && i < 32
    ensures Bit(Shl(x, n), i) == (n <= i && Bit(x, i - n))
  {
  }

  lemma OrBit(a: bv32, b: bv32, i: bv6)
    requires i < 32
    ensures Bit(Or(a, b), i) == (Bit(a, i) || Bit(b, i))
  {
  }

  lemma AndBit(a: bv32, b: bv32, i: bv6)
    requires i < 32
    ensures Bit(And(a, b), i) == (Bit(a, i) && Bit(b, i))
  {
  }

  lemma NotBit(a: bv32, i: bv6)
    requires i < 32
    ensures Bit(Not(a), i) == !Bit(a, i)
  {
  }

  lemma XorBit(a: bv32, b: bv32, i: bv6)
    requires i < 32
    ensures Bit(Xor(a, b), i) == (Bit(a, i) != Bit(b, i))
  {
    hide Bit, Xor, Or, And, Not;
    XorAs(a, b);
    OrBit(a, b, i);
    AndBit(a, b, i);
    NotBit(And(a, b), i);
    AndBit(Or(a, b), Not(And(a, b)), i);
  }

  lemma XorAs(a: bv32, b: bv32)
    ensures Xor(a, b) == And(Or(a, b), Not(And(a, b)))
  {
  }

  lemma RotrBit(x: bv32, n: bv6, i: bv6)
    requires 0 < n < 32 && i < 32
    ensures Bit(Rotr(x, n), i) == Bit(x, Turn(i, n))
  {
    hide Bit, Shr, Shl, Or;
    ShrBit(x, n, i);
    ShlBit(x, 32 - n, i);
    OrBit(Shr(x, n), Shl(x, 32 - n), i);
    Turned(i, n);
  }

  lemma Turned(i: bv6, n: bv6)
    requires 0 < n < 32 && i < 32
    ensures Turn(i, n) == if i + n < 32 then i + n else i - (32 - n)
    ensures i + n < 32 <==> !(32 - n <= i)
  {
  }

  lemma Xor3Bit(a: bv32, b: bv32, c: bv32, i: bv6)
    requires i < 32
    ensures Bit(Xor(Xor(a, b), c), i) == Odd(Bit(a, i), Bit(b, i), Bit(c, i))
  {
    hide Bit, Xor;
    XorBit(a, b, i);
    XorBit(Xor(a, b), c, i);
  }

  /** The first word chooses, bit by bit, between the other two. */
  lemma ChSelects(x: bv32, y: bv32, z: bv32, i: bv6)
    requires i < 32
    ensures Bit(Ch(x, y, z), i) == if Bit(x, i) then Bit(y, i) else Bit(z, i)
  {
    hide Bit, And, Not, Xor;
    AndBit(x, y, i);
    NotBit(x, i);
    AndBit(Not(x), z, i);
    XorBit(And(x, y), And(Not(x), z), i);
  }

  /** Bit by bit, what at least two of the three words say. */
  lemma MajIsMajority(x: bv32, y: bv32, z: bv32, i: bv6)
    requires i < 32
    ensures Bit(Maj(x, y, z), i) == if Bit(x, i) == Bit(y, i) then Bit(x, i) else Bit(z, i)
  {
    hide Bit, And, Xor;
    AndBit(x, y, i);
    AndBit(x, z, i);
    AndBit(y, z, i);
    Xor3Bit(And(x, y), And(x, z), And(y, z), i);
  }

  /** Each bit of the four sigmas is the parity of the three bits the standard names. */
  lemma SigmaBits(x: bv32, i: bv6)
    requires i < 32
    ensures Bit(BigSigma0(x), i) == Odd(Bit(x, Turn(i, 2)), Bit(x, Turn(i, 13)), Bit(x, Turn(i, 22)))
    ensures Bit(BigSigma1(x), i) == Odd(Bit(x, Turn(i, 6)), Bit(x, Turn(i, 11)), Bit(x, Turn(i, 25)))
    ensures Bit(SmallSigma0(x), i) == Odd(Bit(x, Turn(i, 7)), Bit(x, Turn(i, 18)), Above(x, i, 3))
    ensures Bit(SmallSigma1(x), i) == Odd(Bit(x, Turn(i, 17)), Bit(x, Turn(i, 19)), Above(x, i, 10))
  {
    hide Bit, Rotr, Shr, Xor, Turn, Above;
    RotrBit(x, 2, i);
    RotrBit(x, 13, i);
    RotrBit(x, 22, i);
    Xor3Bit(Rotr(x, 2), Rotr(x, 13), Rotr(x, 22), i);
    RotrBit(x, 6, i);
    RotrBit(x, 11, i);
    RotrBit(x, 25, i);
    Xor3Bit(Rotr(x, 6), Rotr(x, 11), Rotr(x, 25), i);
    RotrBit(x, 7, i);
    RotrBit(x, 18, i);
    ShrBit(x, 3, i);
    Xor3Bit(Rotr(x, 7), Rotr(x, 18), Shr(x, 3), i);
    RotrBit(x, 17, i);
    RotrBit(x, 19, i);
    ShrBit(x, 10, i);
    Xor3Bit(Rotr(x, 17), Rotr(x, 19), Shr(x, 10), i);
  }
}
