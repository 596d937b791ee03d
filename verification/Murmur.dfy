/**
 * MurmurHash3 x86_32 over words: the function that the three ports below are
 * proved to compute. Rotations and block reads are written arithmetically here,
 * independently of the shift-and-or forms the ports use.
 */
module Murmur {
  import opened Text
  import opened Words

  const C1: Word := 0xcc9e2d51
  const C2: Word := 0x1b873593
  const ROUND: Word := 0xe6546b64
  const FINAL1: Word := 0x85ebca6b
  const FINAL2: Word := 0xc2b2ae35

  function Rotate15(x: Word): Word {
    x % 0x2_0000 * 0x8000 + x / 0x2_0000
  }

  function Rotate13(x: Word): Word {
    x % 0x8_0000 * 0x2000 + x / 0x8_0000
  }

  function Times(a: Word, b: Word): Word {
    Wrap(a * b)
  }

  /** Scrambles one four-byte block. */
  function Scramble(k: Word): Word {
    Times(Rotate15(Times(k, C1)), C2)
  }

  /** Chains a scrambled block into the running hash. */
  function Chain(h: Word, k: Word): Word {
    Wrap(Times(Rotate13(XorWord(h, k)), 5) + ROUND)
  }

  function ShiftWord(x: Word, n: nat): Word {
    ShiftRight(x, n)
  }

  function XorShifted(h: Word, n: nat): Word {
    XorWord(h, ShiftWord(h, n))
  }

  function Finish(h: Word): Word {
    XorShifted(Times(XorShifted(Times(XorShifted(h, 16), FINAL1), 13), FINAL2), 16)
  }

  /** Little-endian value of one aligned block. */
  function Block(data: seq<Byte>, i: nat): Word
    requires 4 * i + 4 <= |data|
  {
    At(data, 4 * i) + 0x100 * At(data, 4 * i + 1)
    + 0x1_0000 * At(data, 4 * i + 2) + 0x100_0000 * At(data, 4 * i + 3)
  }

  /** Little-endian value of the zero to three bytes after the last block. */
  function TailValue(data: seq<Byte>): Word {
    var n, o := |data| % 4, |data| - |data| % 4;
    (if n >= 1 then At(data, o) else 0)
    + (if n >= 2 then 0x100 * At(data, o + 1) else 0)
    + (if n >= 3 then 0x1_0000 * At(data, o + 2) else 0)
  }

  function HashBlocks(data: seq<Byte>, n: nat, seed: Word): Word
    requires 4 * n <= |data|
  {
    if n == 0 then seed
    else Chain(HashBlocks(data, n - 1, seed), Scramble(Block(data, n - 1)))
  }

  function HashBody(data: seq<Byte>, seed: Word): Word {
    var h := HashBlocks(data, |data| / 4, seed);
    if |data| % 4 == 0 then h else XorWord(h, Scramble(TailValue(data)))
  }

  /** The 32-bit hash of a byte string. */
  function Hash(data: seq<Byte>, seed: Word): Word {
    Finish(XorWord(HashBody(data, seed), Wrap(|data|)))
  }

  // ----- shift-and-or forms of the arithmetic above

  lemma Rotate15IsShiftOr(x: Word)
    ensures x / 0x2_0000 < 0x8000
    ensures Or(Wrap(x * 0x8000), x / 0x2_0000) == Rotate15(x)
  {
    Pow2At32();
    OrIsSum(x % 0x2_0000, x / 0x2_0000, 15);
    DivUnique(x * 0x8000, 0x1_0000_0000, x / 0x2_0000, x % 0x2_0000 * 0x8000);
  }

  lemma Rotate13IsShiftOr(x: Word)
    ensures x / 0x8_0000 < 0x2000
    ensures Or(Wrap(x * 0x2000), x / 0x8_0000) == Rotate13(x)
  {
    Pow2At32();
    OrIsSum(x % 0x8_0000, x / 0x8_0000, 13);
    DivUnique(x * 0x2000, 0x1_0000_0000, x / 0x8_0000, x % 0x8_0000 * 0x2000);
  }

  lemma ShiftConstants(x: Word)
    ensures ShiftRight(x, 17) == x / 0x2_0000 && ShiftRight(x, 19) == x / 0x8_0000
  {
    Pow2At32();
    ShiftIsDivision(x, 17);
    ShiftIsDivision(x, 19);
  }

  /** Four bytes or-ed together at their byte positions. */
  lemma BlockIsOr(b0: nat, b1: nat, b2: nat, b3: nat)
    requires b0 < 0x100 && b1 < 0x100 && b2 < 0x100 && b3 < 0x100
    ensures var a: nat := b0 + 0x100 * b1;
            var b: nat := a + 0x1_0000 * b2;
            && Or(b0, 0x100 * b1) == a
            && Or(a, 0x1_0000 * b2) == b
            && Or(b, 0x100_0000 * b3) == b + 0x100_0000 * b3
  {
    hide Or, Pow2;
    Pow2At32();
    OrIsSum(b1, b0, 8);
    OrCommutes(b0, 0x100 * b1);
    OrIsSum(b2, b0 + 0x100 * b1, 16);
    OrCommutes(b0 + 0x100 * b1, 0x1_0000 * b2);
    OrIsSum(b3, b0 + 0x100 * b1 + 0x1_0000 * b2, 24);
    OrCommutes(b0 + 0x100 * b1 + 0x1_0000 * b2, 0x100_0000 * b3);
  }

  /** The fall-through tail: bytes xor-ed in from the last to the first. */
  lemma TailIsXor(b0: nat, b1: nat, b2: nat)
    requires b0 < 0x100 && b1 < 0x100 && b2 < 0x100
    ensures Xor(0, 0x1_0000 * b2) == 0x1_0000 * b2
    ensures Xor(0x1_0000 * b2, 0x100 * b1) == 0x1_0000 * b2 + 0x100 * b1
    ensures Xor(0x1_0000 * b2 + 0x100 * b1, b0) == 0x1_0000 * b2 + 0x100 * b1 + b0
  {
    Pow2At32();
    XorZero(0x1_0000 * b2);
    XorIsSum(b2, 0x100 * b1, 16);
    XorIsSum(0x100 * b2 + b1, b0, 8);
  }
}
