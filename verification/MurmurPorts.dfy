/**
 * The TypeScript port. A number is an integer; the bitwise operators convert to
 * 32 bits first and produce signed results, and Math.imul is a signed 32-bit
 * product, as sections 6.1.6.1 and 21.3.2.19 of the ECMAScript specification say.
 */
module MurmurJs {
  import opened Text
  import opened Words
  import opened Murmur

  function ShiftLeft(a: int, n: nat): int {
    Signed(Wrap(a) * Pow2(n))
  }

  function UnsignedShift(a: int, n: nat): int {
    ShiftRight(Wrap(a), n)
  }

  function BitOr(a: int, b: int): int {
    Signed(OrWord(Wrap(a), Wrap(b)))
  }

  function BitXor(a: int, b: int): int {
    Signed(XorWord(Wrap(a), Wrap(b)))
  }

  function Imul(a: int, b: int): int {
    Signed(Wrap(a) * Wrap(b))
  }

  function Rotl32(x: int, r: nat): int
    requires r <= 32
  {
    UnsignedShift(BitOr(ShiftLeft(x, r), UnsignedShift(x, 32 - r)), 0)
  }

  lemma OrAgrees(a: int, b: int)
    ensures Wrap(BitOr(a, b)) == OrWord(Wrap(a), Wrap(b))
  {
    WrapSigned(OrWord(Wrap(a), Wrap(b)));
  }

  lemma XorAgrees(a: int, b: int)
    ensures UnsignedShift(BitXor(a, b), 0) == XorWord(Wrap(a), Wrap(b))
  {
    WrapSigned(XorWord(Wrap(a), Wrap(b)));
  }

  lemma ShiftLeftAgrees(a: int, n: nat)
    ensures Wrap(ShiftLeft(a, n)) == Wrap(Wrap(a) * Pow2(n))
  {
    WrapSigned(Wrap(a) * Pow2(n));
  }

  lemma ImulAgrees(a: Word, b: Word)
    ensures UnsignedShift(Imul(a, b), 0) == Times(a, b)
  {
    WrapSigned(a * b);
  }

  lemma Rotate15Agrees(x: Word)
    ensures Rotl32(x, 15) == Rotate15(x)
  {
    hide Xor, Or, Wrap, Signed, ShiftLeft, BitOr;
    var l, r := ShiftLeft(x, 15), UnsignedShift(x, 17);
    WrapWord(x);
    WrapWord(r);
    WrapWord(Rotate15(x));
    Pow2At32();
    ShiftLeftAgrees(x, 15);
    ShiftConstants(x);
    OrAgrees(l, r);
    Rotate15IsShiftOr(x);
  }

  lemma Rotate13Agrees(x: Word)
    ensures Rotl32(x, 13) == Rotate13(x)
  {
    hide Xor, Or, Wrap, Signed, ShiftLeft, BitOr;
    var l, r := ShiftLeft(x, 13), UnsignedShift(x, 19);
    WrapWord(x);
    WrapWord(r);
    WrapWord(Rotate13(x));
    Pow2At32();
    ShiftLeftAgrees(x, 13);
    ShiftConstants(x);
    OrAgrees(l, r);
    Rotate13IsShiftOr(x);
  }

  /** Reading a block with signed shifts and ors, then forcing it unsigned. */
  lemma BlockReadAgrees(b0: nat, b1: nat, b2: nat, b3: nat)
    requires b0 < 0x100 && b1 < 0x100 && b2 < 0x100 && b3 < 0x100
    ensures UnsignedShift(BitOr(BitOr(BitOr(b0, ShiftLeft(b1, 8)), ShiftLeft(b2, 16)), ShiftLeft(b3, 24)), 0)
            == b0 + 0x100 * b1 + 0x1_0000 * b2 + 0x100_0000 * b3
  {
    hide Xor, Or, Wrap, Signed, Pow2, ShiftLeft, BitOr;
    var s1, s2, s3 := ShiftLeft(b1, 8), ShiftLeft(b2, 16), ShiftLeft(b3, 24);
    Pow2At32();
    WrapWord(b0);
    WrapWord(b1);
    WrapWord(b2);
    WrapWord(b3);
    WrapWord(0x100 * b1);
    WrapWord(0x1_0000 * b2);
    WrapWord(0x100_0000 * b3);
    ShiftLeftAgrees(b1, 8);
    ShiftLeftAgrees(b2, 16);
    ShiftLeftAgrees(b3, 24);
    var c1 := BitOr(b0, s1);
    OrAgrees(b0, s1);
    var c2 := BitOr(c1, s2);
    OrAgrees(c1, s2);
    OrAgrees(c2, s3);
    BlockIsOr(b0, b1, b2, b3);
  }

  /** Nothing is lost or turned negative below 2^31. */
  lemma ShiftSmall(b: nat, n: nat)
    requires b < 0x100 && Pow2(n) <= 0x1_0000
    ensures ShiftLeft(b, n) == Pow2(n) * b
  {
    hide Pow2, Wrap, Signed;
    MulBound(b, 0xff, Pow2(n), 0x1_0000);
    WrapWord(b);
    SignedSmall(b * Pow2(n));
  }

  lemma BitXorSmall(a: nat, b: nat)
    requires a < 0x100_0000 && b < 0x100_0000 && Xor(a, b) < 0x100_0000
    ensures BitXor(a, b) == Xor(a, b)
  {
    hide Xor;
    WrapWord(a);
    WrapWord(b);
  }

  lemma TailReadAgrees(b0: nat, b1: nat, b2: nat)
    requires b0 < 0x100 && b1 < 0x100 && b2 < 0x100
    ensures var x2 := BitXor(0, ShiftLeft(b2, 16));
            var x1 := BitXor(x2, ShiftLeft(b1, 8));
            && BitXor(x1, b0) == 0x1_0000 * b2 + 0x100 * b1 + b0
            && (b2 == 0 ==> x2 == 0)
            && (b1 == 0 && b2 == 0 ==> x1 == 0)
  {
    hide Xor, Pow2, BitXor, ShiftLeft;
    Pow2At32();
    ShiftSmall(b2, 16);
    ShiftSmall(b1, 8);
    TailIsXor(b0, b1, b2);
    BitXorSmall(0, 0x1_0000 * b2);
    BitXorSmall(0x1_0000 * b2, 0x100 * b1);
    BitXorSmall(0x1_0000 * b2 + 0x100 * b1, b0);
  }

  lemma BlockCountAgrees(len: nat)
    ensures UnsignedShift(len, 2) == Wrap(len) / 4 && Wrap(len) % 4 == len % 4
  {
    ShiftIsDivision(Wrap(len), 2);
    assert Pow2(1) == 2;
  }

  lemma ScrambleAgrees(k: Word)
    ensures UnsignedShift(Imul(Rotl32(UnsignedShift(Imul(k, C1), 0), 15), C2), 0) == Scramble(k)
    ensures UnsignedShift(k, 0) == k
  {
    hide Wrap, Signed, Rotl32, Imul, Times, Rotate15;
    WrapWord(k);
    ImulAgrees(k, C1);
    var x := Times(k, C1);
    Rotate15Agrees(x);
    ImulAgrees(Rotate15(x), C2);
  }

  lemma TimesFiveAgrees(y: Word)
    ensures UnsignedShift(Imul(y, 5) + ROUND, 0) == Wrap(Times(y, 5) + ROUND)
  {
    WrapSigned(y * 5);
    WrapAdd(Imul(y, 5), ROUND);
  }

  lemma ChainAgrees(h: Word, k: Word)
    ensures UnsignedShift(Imul(Rotl32(UnsignedShift(BitXor(h, k), 0), 13), 5) + ROUND, 0) == Chain(h, k)
  {
    hide Xor, Wrap, Signed, XorWord, Rotl32, Rotate13, BitXor, Imul, Times;
    WrapWord(h);
    WrapWord(k);
    XorAgrees(h, k);
    Rotate13Agrees(XorWord(h, k));
    TimesFiveAgrees(Rotate13(XorWord(h, k)));
  }

  lemma FinishAgrees(h: Word, len: nat)
    ensures var x0 := UnsignedShift(BitXor(h, len), 0);
            var x1 := UnsignedShift(BitXor(x0, UnsignedShift(x0, 16)), 0);
            var x2 := UnsignedShift(Imul(x1, FINAL1), 0);
            var x3 := UnsignedShift(BitXor(x2, UnsignedShift(x2, 13)), 0);
            var x4 := UnsignedShift(Imul(x3, FINAL2), 0);
            UnsignedShift(BitXor(x4, UnsignedShift(x4, 16)), 0) == Finish(XorWord(h, Wrap(len)))
  {
    hide Xor, Wrap, Signed, Times, BitXor, Imul, XorWord;
    WrapWord(h);
    XorAgrees(h, len);
    var x0 := XorWord(h, Wrap(len));
    WrapWord(x0);
    WrapWord(ShiftWord(x0, 16));
    XorAgrees(x0, ShiftWord(x0, 16));
    var x1 := XorShifted(x0, 16);
    ImulAgrees(x1, FINAL1);
    var x2 := Times(x1, FINAL1);
    WrapWord(x2);
    WrapWord(ShiftWord(x2, 13));
    XorAgrees(x2, ShiftWord(x2, 13));
    var x3 := XorShifted(x2, 13);
    ImulAgrees(x3, FINAL2);
    var x4 := Times(x3, FINAL2);
    WrapWord(x4);
    WrapWord(ShiftWord(x4, 16));
    XorAgrees(x4, ShiftWord(x4, 16));
  }

  lemma SeedAgrees(seed: int)
    ensures UnsignedShift(seed, 0) == Wrap(seed)
  {
    hide Wrap;
  }

  /** The first n bytes, with zeros past the end: an absent element counts as zero in every bitwise operator. */
  function Prefix(data: seq<Byte>, n: nat): (r: seq<Byte>)
    ensures |r| == n
    ensures n <= |data| ==> r == data[..n]
  {
    seq(n, i requires 0 <= i < n => if i < |data| then data[i] else 0)
  }

  function ElementAt(data: array<Byte>, i: nat): (r: nat)
    reads data
    ensures r < 0x100
  {
    if i < data.Length then data[i] else 0
  }

  lemma BlockValue(data: array<Byte>, n: nat, i: nat)
    requires 4 * i + 4 <= n
    ensures Block(Prefix(data[..], n), i)
            == ElementAt(data, i * 4) + 0x100 * ElementAt(data, i * 4 + 1)
               + 0x1_0000 * ElementAt(data, i * 4 + 2) + 0x100_0000 * ElementAt(data, i * 4 + 3)
  {
  }

  method Hash32(data: array<Byte>, seed: int, byteLength: Option<nat>) returns (hash: int)
    ensures hash == Hash(Prefix(data[..], Wrap(byteLength.GetOr(data.Length))), Wrap(seed))
  {
    hide Wrap, Signed, Xor, ShiftLeft, UnsignedShift, BitOr, BitXor, Imul, Rotl32, Chain, Scramble, Finish, XorWord,
         Block;
    var len := byteLength.GetOr(data.Length);
    ghost var bytes := Prefix(data[..], Wrap(len));
    BlockCountAgrees(len);
    var nblocks := UnsignedShift(len, 2);
    SeedAgrees(seed);
    var h1 := UnsignedShift(seed, 0);
    for i := 0 to nblocks
      invariant h1 == HashBlocks(bytes, i, Wrap(seed))
    {
      var o := i * 4;
      BlockReadAgrees(ElementAt(data, o), ElementAt(data, o + 1), ElementAt(data, o + 2), ElementAt(data, o + 3));
      var k1 := UnsignedShift(
        BitOr(BitOr(BitOr(ElementAt(data, o), ShiftLeft(ElementAt(data, o + 1), 8)),
                    ShiftLeft(ElementAt(data, o + 2), 16)),
              ShiftLeft(ElementAt(data, o + 3), 24)),
        0);
      BlockValue(data, Wrap(len), i);
      assert k1 == Block(bytes, i);
      ScrambleAgrees(k1);
      k1 := UnsignedShift(Imul(k1, C1), 0);
      k1 := Rotl32(k1, 15);
      k1 := UnsignedShift(Imul(k1, C2), 0);

      ChainAgrees(h1, k1);
      h1 := UnsignedShift(BitXor(h1, k1), 0);
      h1 := Rotl32(h1, 13);
      h1 := UnsignedShift(Imul(h1, 5) + ROUND, 0);
    }

    var tail := nblocks * 4;
    var rest := len % 4;  // len & 3
    var k1 := 0;
    if rest >= 1 {
      TailReadAgrees(ElementAt(data, tail),
                     if rest >= 2 then ElementAt(data, tail + 1) else 0,
                     if rest >= 3 then ElementAt(data, tail + 2) else 0);
    }
    if rest >= 3 {
      k1 := BitXor(k1, ShiftLeft(ElementAt(data, tail + 2), 16));
    }
    if rest >= 2 {
      k1 := BitXor(k1, ShiftLeft(ElementAt(data, tail + 1), 8));
    }
    if rest >= 1 {
      k1 := BitXor(k1, ElementAt(data, tail));
      assert k1 == TailValue(bytes);
      ScrambleAgrees(k1);
      k1 := UnsignedShift(Imul(UnsignedShift(k1, 0), C1), 0);
      k1 := Rotl32(k1, 15);
      k1 := UnsignedShift(Imul(k1, C2), 0);
      WrapWord(h1);
      WrapWord(k1);
      XorAgrees(h1, k1);
      h1 := UnsignedShift(BitXor(h1, k1), 0);
    }
    assert h1 == HashBody(bytes, Wrap(seed));

    WrapWord(Wrap(len));
    FinishAgrees(h1, len);
    h1 := UnsignedShift(BitXor(h1, len), 0);
    h1 := UnsignedShift(BitXor(h1, UnsignedShift(h1, 16)), 0);
    h1 := UnsignedShift(Imul(h1, FINAL1), 0);
    h1 := UnsignedShift(BitXor(h1, UnsignedShift(h1, 13)), 0);
    h1 := UnsignedShift(Imul(h1, FINAL2), 0);
    h1 := UnsignedShift(BitXor(h1, UnsignedShift(h1, 16)), 0);
    return h1;
  }
}

/** The Java port: signed 32-bit integers that wrap, and sign-extended bytes. */
module MurmurJava {
  import opened Text
  import opened Words
  import opened Murmur

  type SignedByte = x: int | -0x80 <= x < 0x80

  const JAVA_C1: int := -862048943
  const JAVA_C2: int := 461845907
  const JAVA_ROUND: int := -430675100
  const JAVA_FINAL1: int := -2048144789
  const JAVA_FINAL2: int := -1028477387

  /** The bytes that a signed byte array stands for. */
  function Unsigned(data: seq<SignedByte>): (r: seq<Byte>)
    ensures |r| == |data|
  {
    seq(|data|, i requires 0 <= i < |data| => LowByte(data[i]))
  }

  function Mul(a: int, b: int): int {
    Signed(a * b)
  }

  function Add(a: int, b: int): int {
    Signed(a + b)
  }

  function ShiftLeft(a: int, n: nat): int {
    Signed(a * Pow2(n))
  }

  function UnsignedShift(a: int, n: nat): int {
    Signed(ShiftRight(Wrap(a), n))
  }

  function BitOr(a: int, b: int): int {
    Signed(OrWord(Wrap(a), Wrap(b)))
  }

  function BitXor(a: int, b: int): int {
    Signed(XorWord(Wrap(a), Wrap(b)))
  }

  /** b & 0xff undoes the sign extension of a byte. */
  function LowByte(b: SignedByte): (r: nat)
    ensures r < 0x100
  {
    b % 0x100
  }

  function RotateLeft(x: int, n: nat): int
    requires n <= 32
  {
    BitOr(ShiftLeft(x, n), UnsignedShift(x, 32 - n))
  }

  lemma ConstantsAgree()
    ensures Wrap(JAVA_C1) == C1 && Wrap(JAVA_C2) == C2 && Wrap(JAVA_ROUND) == ROUND
    ensures Wrap(JAVA_FINAL1) == FINAL1 && Wrap(JAVA_FINAL2) == FINAL2
  {
  }

  lemma MulAgrees(a: int, b: int)
    ensures Wrap(Mul(a, b)) == Times(Wrap(a), Wrap(b))
  {
    WrapSigned(a * b);
    WrapMul(a, b);
  }

  lemma AddAgrees(a: int, b: int)
    ensures Wrap(Add(a, b)) == Wrap(Wrap(a) + Wrap(b))
  {
    WrapSigned(a + b);
    WrapAdd(a, b);
  }

  lemma OrAgrees(a: int, b: int)
    ensures Wrap(BitOr(a, b)) == OrWord(Wrap(a), Wrap(b))
  {
    WrapSigned(OrWord(Wrap(a), Wrap(b)));
  }

  lemma XorAgrees(a: int, b: int)
    ensures Wrap(BitXor(a, b)) == XorWord(Wrap(a), Wrap(b))
  {
    WrapSigned(XorWord(Wrap(a), Wrap(b)));
  }

  lemma ShiftLeftAgrees(a: int, n: nat)
    ensures Wrap(ShiftLeft(a, n)) == Wrap(Wrap(a) * Pow2(n))
  {
    hide Wrap, Signed, Pow2;
    WrapSigned(a * Pow2(n));
    WrapMul(a, Pow2(n));
    WrapWord(Wrap(a));
    WrapMul(Wrap(a), Pow2(n));
  }

  lemma UnsignedShiftAgrees(a: int, n: nat)
    ensures Wrap(UnsignedShift(a, n)) == ShiftWord(Wrap(a), n)
  {
    WrapSigned(ShiftRight(Wrap(a), n));
  }

  lemma Rotate15Agrees(x: int)
    ensures Wrap(RotateLeft(x, 15)) == Rotate15(Wrap(x))
  {
    hide Xor, Or, Wrap, Signed, ShiftLeft, UnsignedShift, BitOr;
    Pow2At32();
    OrAgrees(ShiftLeft(x, 15), UnsignedShift(x, 17));
    ShiftLeftAgrees(x, 15);
    UnsignedShiftAgrees(x, 17);
    ShiftConstants(Wrap(x));
    Rotate15IsShiftOr(Wrap(x));
  }

  lemma Rotate13Agrees(x: int)
    ensures Wrap(RotateLeft(x, 13)) == Rotate13(Wrap(x))
  {
    hide Xor, Or, Wrap, Signed, ShiftLeft, UnsignedShift, BitOr;
    Pow2At32();
    OrAgrees(ShiftLeft(x, 13), UnsignedShift(x, 19));
    ShiftLeftAgrees(x, 13);
    UnsignedShiftAgrees(x, 19);
    ShiftConstants(Wrap(x));
    Rotate13IsShiftOr(Wrap(x));
  }

  lemma BlockReadAgrees(b0: nat, b1: nat, b2: nat, b3: nat)
    requires b0 < 0x100 && b1 < 0x100 && b2 < 0x100 && b3 < 0x100
    ensures Wrap(BitOr(BitOr(BitOr(b0, ShiftLeft(b1, 8)), ShiftLeft(b2, 16)), ShiftLeft(b3, 24)))
            == b0 + 0x100 * b1 + 0x1_0000 * b2 + 0x100_0000 * b3
  {
    hide Xor, Or, Wrap, Signed, Pow2, ShiftLeft, BitOr;
    var s1, s2, s3 := ShiftLeft(b1, 8), ShiftLeft(b2, 16), ShiftLeft(b3, 24);
    Pow2At32();
    WrapWord(b0);
    WrapWord(b1);
    WrapWord(b2);
    WrapWord(b3);
    WrapWord(0x100 * b1);
    WrapWord(0x1_0000 * b2);
    WrapWord(0x100_0000 * b3);
    ShiftLeftAgrees(b1, 8);
    ShiftLeftAgrees(b2, 16);
    ShiftLeftAgrees(b3, 24);
    var c1 := BitOr(b0, s1);
    OrAgrees(b0, s1);
    var c2 := BitOr(c1, s2);
    OrAgrees(c1, s2);
    OrAgrees(c2, s3);
    BlockIsOr(b0, b1, b2, b3);
  }

  /** Nothing is lost or turned negative below 2^31. */
  lemma ShiftSmall(b: nat, n: nat)
    requires b < 0x100 && Pow2(n) <= 0x1_0000
    ensures ShiftLeft(b, n) == Pow2(n) * b
  {
    hide Pow2, Wrap, Signed;
    MulBound(b, 0xff, Pow2(n), 0x1_0000);
    WrapWord(b);
    SignedSmall(b * Pow2(n));
  }

  lemma BitXorSmall(a: nat, b: nat)
    requires a < 0x100_0000 && b < 0x100_0000 && Xor(a, b) < 0x100_0000
    ensures BitXor(a, b) == Xor(a, b)
  {
    hide Xor;
    WrapWord(a);
    WrapWord(b);
  }

  lemma TailReadAgrees(b0: nat, b1: nat, b2: nat)
    requires b0 < 0x100 && b1 < 0x100 && b2 < 0x100
    ensures var x2 := BitXor(0, ShiftLeft(b2, 16));
            var x1 := BitXor(x2, ShiftLeft(b1, 8));
            && BitXor(x1, b0) == 0x1_0000 * b2 + 0x100 * b1 + b0
            && (b2 == 0 ==> x2 == 0)
            && (b1 == 0 && b2 == 0 ==> x1 == 0)
  {
    hide Xor, Pow2, BitXor, ShiftLeft;
    Pow2At32();
    ShiftSmall(b2, 16);
    ShiftSmall(b1, 8);
    TailIsXor(b0, b1, b2);
    BitXorSmall(0, 0x1_0000 * b2);
    BitXorSmall(0x1_0000 * b2, 0x100 * b1);
    BitXorSmall(0x1_0000 * b2 + 0x100 * b1, b0);
  }

  lemma ScrambleAgrees(k: int)
    ensures Wrap(Mul(RotateLeft(Mul(k, JAVA_C1), 15), JAVA_C2)) == Scramble(Wrap(k))
  {
    hide Wrap, Signed, RotateLeft, Mul, Times, Rotate15;
    ConstantsAgree();
    MulAgrees(k, JAVA_C1);
    Rotate15Agrees(Mul(k, JAVA_C1));
    MulAgrees(RotateLeft(Mul(k, JAVA_C1), 15), JAVA_C2);
  }

  lemma ChainAgrees(h: int, k: int)
    ensures Wrap(Add(Mul(RotateLeft(BitXor(h, k), 13), 5), JAVA_ROUND)) == Chain(Wrap(h), Wrap(k))
  {
    hide Wrap, Signed, RotateLeft, Mul, Times, Rotate13, XorWord, BitXor, Add;
    ConstantsAgree();
    WrapWord(5);
    XorAgrees(h, k);
    Rotate13Agrees(BitXor(h, k));
    MulAgrees(RotateLeft(BitXor(h, k), 13), 5);
    AddAgrees(Mul(RotateLeft(BitXor(h, k), 13), 5), JAVA_ROUND);
  }

  lemma XorShiftAgrees(h: int, n: nat)
    ensures Wrap(BitXor(h, UnsignedShift(h, n))) == XorShifted(Wrap(h), n)
  {
    hide Wrap, Signed, BitXor, UnsignedShift, XorWord, ShiftWord;
    XorAgrees(h, UnsignedShift(h, n));
    UnsignedShiftAgrees(h, n);
  }

  lemma FinishAgrees(h: int, len: Word)
    ensures var x0 := BitXor(h, len);
            var x1 := BitXor(x0, UnsignedShift(x0, 16));
            var x2 := Mul(x1, JAVA_FINAL1);
            var x3 := BitXor(x2, UnsignedShift(x2, 13));
            var x4 := Mul(x3, JAVA_FINAL2);
            Wrap(BitXor(x4, UnsignedShift(x4, 16))) == Finish(XorWord(Wrap(h), len))
  {
    hide Wrap, Signed, BitXor, UnsignedShift, XorWord, XorShifted, Mul, Times;
    ConstantsAgree();
    WrapWord(len);
    XorAgrees(h, len);
    var x0 := BitXor(h, len);
    XorShiftAgrees(x0, 16);
    var x1 := BitXor(x0, UnsignedShift(x0, 16));
    MulAgrees(x1, JAVA_FINAL1);
    var x2 := Mul(x1, JAVA_FINAL1);
    XorShiftAgrees(x2, 13);
    var x3 := BitXor(x2, UnsignedShift(x2, 13));
    MulAgrees(x3, JAVA_FINAL2);
    XorShiftAgrees(Mul(x3, JAVA_FINAL2), 16);
  }

  method Hash32(data: array<SignedByte>, seed: int) returns (result: int)
    requires data.Length < 0x8000_0000
    requires -0x8000_0000 <= seed < 0x8000_0000
    ensures result == Hash(Unsigned(data[..]), Wrap(seed))
  {
    hide Wrap, Signed, Xor, ShiftLeft, BitOr, BitXor, Mul, Add, RotateLeft, Chain, Scramble, Finish, XorWord;
    ghost var bytes := Unsigned(data[..]);
    var hash := seed;
    var blockCount := data.Length / 4;
    for block := 0 to blockCount
      invariant Wrap(hash) == HashBlocks(bytes, block, Wrap(seed))
    {
      var offset := block * 4;
      BlockReadAgrees(LowByte(data[offset]), LowByte(data[offset + 1]), LowByte(data[offset + 2]),
        LowByte(data[offset + 3]));
      var k :=
        BitOr(BitOr(BitOr(LowByte(data[offset]), ShiftLeft(LowByte(data[offset + 1]), 8)),
                    ShiftLeft(LowByte(data[offset + 2]), 16)),
              ShiftLeft(LowByte(data[offset + 3]), 24));
      assert Wrap(k) == Block(bytes, block);
      ScrambleAgrees(k);
      k := Mul(k, JAVA_C1);
      k := RotateLeft(k, 15);
      k := Mul(k, JAVA_C2);

      ChainAgrees(hash, k);
      hash := BitXor(hash, k);
      hash := RotateLeft(hash, 13);
      hash := Add(Mul(hash, 5), JAVA_ROUND);
    }

    var tailOffset := blockCount * 4;
    var k := 0;
    var rest := data.Length % 4;  // data.length & 3
    if rest >= 1 {
      TailReadAgrees(LowByte(data[tailOffset]),
                     if rest >= 2 then LowByte(data[tailOffset + 1]) else 0,
                     if rest >= 3 then LowByte(data[tailOffset + 2]) else 0);
    }
    if rest >= 3 {
      k := BitXor(k, ShiftLeft(LowByte(data[tailOffset + 2]), 16));
    }
    if rest >= 2 {
      k := BitXor(k, ShiftLeft(LowByte(data[tailOffset + 1]), 8));
    }
    if rest >= 1 {
      k := BitXor(k, LowByte(data[tailOffset]));
      assert k == TailValue(bytes);
      WrapWord(TailValue(bytes));
      ScrambleAgrees(k);
      k := Mul(k, JAVA_C1);
      k := RotateLeft(k, 15);
      k := Mul(k, JAVA_C2);
      XorAgrees(hash, k);
      hash := BitXor(hash, k);
    }
    assert Wrap(hash) == HashBody(bytes, Wrap(seed));

    WrapWord(data.Length);
    FinishAgrees(hash, data.Length);
    hash := BitXor(hash, data.Length);
    hash := BitXor(hash, UnsignedShift(hash, 16));
    hash := Mul(hash, JAVA_FINAL1);
    hash := BitXor(hash, UnsignedShift(hash, 13));
    hash := Mul(hash, JAVA_FINAL2);
    hash := BitXor(hash, UnsignedShift(hash, 16));

    return Wrap(hash);  // hash & 0xFFFFFFFFL
  }
}

/** The Go port: uint32 arithmetic that wraps natively. */
module MurmurGo {
  import opened Text
  import opened Words
  import opened Murmur

  function Mul(a: Word, b: Word): Word {
    Wrap(a * b)
  }

  function Add(a: Word, b: Word): Word {
    Wrap(a + b)
  }

  function ShiftLeft(a: Word, n: nat): Word {
    Wrap(a * Pow2(n))
  }

  function RotateLeft32(x: Word, n: nat): Word
    requires n <= 32
  {
    OrWord(ShiftLeft(x, n), ShiftWord(x, 32 - n))
  }

  lemma RotationsAgree(x: Word)
    ensures RotateLeft32(x, 15) == Rotate15(x) && RotateLeft32(x, 13) == Rotate13(x)
  {
    hide Xor, Or, Wrap;
    Pow2At32();
    ShiftConstants(x);
    Rotate15IsShiftOr(x);
    Rotate13IsShiftOr(x);
  }

  lemma BlockReadAgrees(b0: nat, b1: nat, b2: nat, b3: nat)
    requires b0 < 0x100 && b1 < 0x100 && b2 < 0x100 && b3 < 0x100
    ensures OrWord(OrWord(OrWord(b0, ShiftLeft(b1, 8)), ShiftLeft(b2, 16)), ShiftLeft(b3, 24))
            == b0 + 0x100 * b1 + 0x1_0000 * b2 + 0x100_0000 * b3
  {
    hide Xor, Or, Pow2, Wrap;
    Pow2At32();
    WrapWord(0x100 * b1);
    WrapWord(0x1_0000 * b2);
    WrapWord(0x100_0000 * b3);
    BlockIsOr(b0, b1, b2, b3);
  }

  lemma TailReadAgrees(b0: nat, b1: nat, b2: nat)
    requires b0 < 0x100 && b1 < 0x100 && b2 < 0x100
    ensures var x2 := XorWord(0, ShiftLeft(b2, 16));
            var x1 := XorWord(x2, ShiftLeft(b1, 8));
            && XorWord(x1, b0) == 0x1_0000 * b2 + 0x100 * b1 + b0
            && (b2 == 0 ==> x2 == 0)
            && (b1 == 0 && b2 == 0 ==> x1 == 0)
  {
    hide Xor, Or, Pow2;
    Pow2At32();
    WrapWord(0x1_0000 * b2);
    WrapWord(0x100 * b1);
    TailIsXor(b0, b1, b2);
  }

  lemma ScrambleAgrees(k: Word)
    ensures Mul(RotateLeft32(Mul(k, C1), 15), C2) == Scramble(k)
  {
    hide RotateLeft32, Rotate15, Wrap;
    RotationsAgree(Mul(k, C1));
  }

  lemma ChainAgrees(h: Word, k: Word)
    ensures Add(Mul(RotateLeft32(XorWord(h, k), 13), 5), ROUND) == Chain(h, k)
  {
    hide RotateLeft32, Rotate13, Wrap, XorWord;
    RotationsAgree(XorWord(h, k));
  }

  method Hash32(data: array<Byte>, seed: Word) returns (hash: Word)
    ensures hash == Hash(data[..], seed)
  {
    hide Wrap, Xor, ShiftLeft, OrWord, RotateLeft32, Chain, Scramble, XorWord;
    var h1 := seed;
    var nblocks := data.Length / 4;
    for i := 0 to nblocks
      invariant h1 == HashBlocks(data[..], i, seed)
    {
      var o := i * 4;
      BlockReadAgrees(data[o], data[o + 1], data[o + 2], data[o + 3]);
      var k1 := OrWord(OrWord(OrWord(data[o], ShiftLeft(data[o + 1], 8)), ShiftLeft(data[o + 2], 16)),
        ShiftLeft(data[o + 3], 24));
      assert k1 == Block(data[..], i);
      ScrambleAgrees(k1);
      k1 := Mul(k1, C1);
      k1 := RotateLeft32(k1, 15);
      k1 := Mul(k1, C2);

      ChainAgrees(h1, k1);
      h1 := XorWord(h1, k1);
      h1 := RotateLeft32(h1, 13);
      h1 := Add(Mul(h1, 5), ROUND);
    }

    var tail := data[nblocks * 4..];
    var k1: Word := 0;
    if |tail| >= 1 {
      TailReadAgrees(tail[0], if |tail| >= 2 then tail[1] else 0, if |tail| >= 3 then tail[2] else 0);
    }
    if |tail| >= 3 {
      k1 := XorWord(k1, ShiftLeft(tail[2], 16));
    }
    if |tail| >= 2 {
      k1 := XorWord(k1, ShiftLeft(tail[1], 8));
    }
    if |tail| >= 1 {
      k1 := XorWord(k1, tail[0]);
      assert k1 == TailValue(data[..]);
      ScrambleAgrees(k1);
      k1 := Mul(k1, C1);
      k1 := RotateLeft32(k1, 15);
      k1 := Mul(k1, C2);
      h1 := XorWord(h1, k1);
    }
    assert h1 == HashBody(data[..], seed);

    h1 := XorWord(h1, Wrap(data.Length));  // uint32(len(data))
    h1 := XorWord(h1, ShiftWord(h1, 16));
    h1 := Mul(h1, FINAL1);
    h1 := XorWord(h1, ShiftWord(h1, 13));
    h1 := Mul(h1, FINAL2);
    h1 := XorWord(h1, ShiftWord(h1, 16));
    return h1;
  }
}
