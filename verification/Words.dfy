/**
 * 32-bit words as integers in [0, 2^32), and the integer operators of the three
 * languages the bucketing hash is written in. Bitwise operators are defined bit
 * by bit, so the signed and unsigned readings of a word can be compared.
 */
module Words {

  type Word = x: int | 0 <= x < 0x1_0000_0000

  function Pow2(n: nat): (r: nat)
    ensures r > 0
  {
    if n == 0 then 1 else 2 * Pow2(n - 1)
  }

  lemma MulMonotone(a: int, b: int, c: nat)
    requires a <= b
    ensures a * c <= b * c
  {
  }

  /** The low 32 bits of a number, in two's complement for a negative one. */
  function Wrap(x: int): Word {
    x % 0x1_0000_0000
  }

  /** The signed reading of the low 32 bits. */
  function Signed(x: int): int {
    if Wrap(x) < 0x8000_0000 then Wrap(x) else Wrap(x) - 0x1_0000_0000
  }

  lemma SignedSmall(x: int)
    requires 0 <= x < 0x8000_0000
    ensures Signed(x) == x
  {
  }

  function Xor(a: nat, b: nat): nat
    decreases a + b
  {
    if a == 0 && b == 0 then 0 else 2 * Xor(a / 2, b / 2) + (a + b) % 2
  }

  function Or(a: nat, b: nat): nat
    decreases a + b
  {
    if a == 0 && b == 0 then 0 else 2 * Or(a / 2, b / 2) + (if a % 2 == 1 || b % 2 == 1 then 1 else 0)
  }

  lemma {:induction false} XorBound(a: nat, b: nat, n: nat)
    requires a < Pow2(n) && b < Pow2(n)
    ensures Xor(a, b) < Pow2(n)
  {
    if n > 0 {
      XorBound(a / 2, b / 2, n - 1);
    }
  }

  lemma {:induction false} OrBound(a: nat, b: nat, n: nat)
    requires a < Pow2(n) && b < Pow2(n)
    ensures Or(a, b) < Pow2(n)
  {
    if n > 0 {
      OrBound(a / 2, b / 2, n - 1);
    }
  }

  lemma Pow2At32()
    ensures Pow2(32) == 0x1_0000_0000
    ensures Pow2(24) == 0x100_0000 && Pow2(16) == 0x1_0000 && Pow2(8) == 0x100
    ensures Pow2(13) == 0x2000 && Pow2(19) == 0x8_0000 && Pow2(15) == 0x8000 && Pow2(17) == 0x2_0000
  {
    assert Pow2(4) == 16;
    assert Pow2(8) == 0x100;
    assert Pow2(12) == 0x1000;
    assert Pow2(13) == 0x2000;
    assert Pow2(15) == 0x8000;
    assert Pow2(16) == 0x1_0000;
    assert Pow2(17) == 0x2_0000;
    assert Pow2(19) == 0x8_0000;
    assert Pow2(20) == 0x10_0000;
    assert Pow2(24) == 0x100_0000;
    assert Pow2(28) == 0x1000_0000;
  }

  function XorWord(a: Word, b: Word): Word {
    Pow2At32();
    XorBound(a, b, 32);
    Xor(a, b)
  }

  function OrWord(a: Word, b: Word): Word {
    Pow2At32();
    OrBound(a, b, 32);
    Or(a, b)
  }

  lemma XorHalves(a: nat, b: nat)
    ensures Xor(a, b) / 2 == Xor(a / 2, b / 2) && Xor(a, b) % 2 == (a + b) % 2
  {
  }

  lemma {:induction false} XorCommutes(a: nat, b: nat)
    ensures Xor(a, b) == Xor(b, a)
    decreases a + b
  {
    if a != 0 || b != 0 {
      XorCommutes(a / 2, b / 2);
    }
  }

  /** A number is determined by its half and its parity. */
  lemma HalvesDetermine(x: nat, y: nat)
    requires x / 2 == y / 2 && x % 2 == y % 2
    ensures x == y
  {
  }

  lemma ParityCancels(a: nat, b: nat, x: nat)
    requires x % 2 == (a + b) % 2
    ensures (x + b) % 2 == a % 2
  {
  }

  /** Combining with the same word twice is the identity. */
  lemma {:induction false} XorCancels(a: nat, b: nat)
    ensures Xor(Xor(a, b), b) == a
    decreases a + b
  {
    XorHalves(a, b);
    XorHalves(Xor(a, b), b);
    if a != 0 || b != 0 {
      XorCancels(a / 2, b / 2);
      ParityCancels(a, b, Xor(a, b));
      HalvesDetermine(Xor(Xor(a, b), b), a);
    }
  }

  lemma {:induction false} XorZero(a: nat)
    ensures Xor(a, 0) == a && Xor(0, a) == a
  {
    if a != 0 {
      XorZero(a / 2);
    }
  }

  /** A logical right shift by n positions. */
  function ShiftRight(a: nat, n: nat): (r: nat)
    ensures r <= a
  {
    if n == 0 then a else ShiftRight(a / 2, n - 1)
  }

  /** A right shift acts on both sides of an exclusive or. */
  lemma {:induction false} XorShift(a: nat, b: nat, n: nat)
    ensures ShiftRight(Xor(a, b), n) == Xor(ShiftRight(a, n), ShiftRight(b, n))
    decreases n
  {
    if n > 0 {
      XorHalves(a, b);
      XorShift(a / 2, b / 2, n - 1);
    }
  }

  lemma {:induction false} ShiftIsDivision(a: nat, n: nat)
    ensures ShiftRight(a, n) == a / Pow2(n)
    decreases n
  {
    if n > 0 {
      ShiftIsDivision(a / 2, n - 1);
      DivTwice(a, Pow2(n - 1));
    }
  }

  lemma {:induction false} ShiftTwice(a: nat, m: nat, n: nat)
    ensures ShiftRight(ShiftRight(a, m), n) == ShiftRight(a, m + n)
    decreases m
  {
    if m > 0 {
      ShiftTwice(a / 2, m - 1, n);
    }
  }

  lemma DivTwice(a: nat, d: nat)
    requires d > 0
    ensures a / (2 * d) == (a / 2) / d
  {
    var q := (a / 2) / d;
    var r := (a / 2) % d;
    var s := a % 2;
    assert a / 2 == q * d + r;
    assert a == (2 * d) * q + (2 * r + s);
    assert 0 <= 2 * r + s < 2 * d;
    DivUnique(a, 2 * d, q, 2 * r + s);
  }

  lemma MulAtLeast(d: nat, k: int)
    requires k >= 1
    ensures d * k >= d
  {
  }

  lemma MulBound(a: nat, b: nat, c: nat, d: nat)
    requires a <= b && c <= d
    ensures a * c <= b * d
  {
    assert b * d == a * c + a * (d - c) + (b - a) * d;
  }

  lemma DivUnique(a: nat, d: nat, q: int, r: nat)
    requires d > 0 && a == d * q + r && r < d
    ensures a / d == q && a % d == r
  {
    var k, m := a / d, a % d;
    assert a == d * k + m;
    assert d * (k - q) == r - m;
    assert d * (q - k) == m - r;
    if k > q {
      MulAtLeast(d, k - q);
    } else if k < q {
      MulAtLeast(d, q - k);
    }
  }

  lemma DoubleProduct(high: nat, n: nat)
    requires n > 0
    ensures high * Pow2(n) == 2 * (high * Pow2(n - 1)) && Pow2(n) == 2 * Pow2(n - 1)
  {
  }

  /** Bits that do not overlap combine by addition. */
  lemma {:induction false} OrIsSum(high: nat, low: nat, n: nat)
    requires low < Pow2(n)
    ensures Or(high * Pow2(n), low) == high * Pow2(n) + low
    decreases n
  {
    if n == 0 {
      OrZero(high);
    } else {
      DoubleProduct(high, n);
      hide Pow2;
      OrIsSum(high, low / 2, n - 1);
    }
  }

  lemma XorOneMoreBit(high: nat, low: nat)
    requires Xor(high, low / 2) == high + low / 2
    ensures Xor(2 * high, low) == 2 * high + low
  {
    hide Xor;
    XorHalves(2 * high, low);
    HalvesDetermine(Xor(2 * high, low), 2 * high + low);
  }

  /** The same for exclusive or. */
  lemma {:induction false} XorIsSum(high: nat, low: nat, n: nat)
    requires low < Pow2(n)
    ensures Xor(high * Pow2(n), low) == high * Pow2(n) + low
    decreases n
  {
    if n == 0 {
      XorZero(high);
    } else {
      DoubleProduct(high, n);
      hide Pow2;
      XorIsSum(high, low / 2, n - 1);
      XorOneMoreBit(high * Pow2(n - 1), low);
    }
  }

  lemma {:induction false} OrCommutes(a: nat, b: nat)
    ensures Or(a, b) == Or(b, a)
    decreases a + b
  {
    if a != 0 || b != 0 {
      OrCommutes(a / 2, b / 2);
    }
  }

  lemma {:induction false} OrZero(a: nat)
    ensures Or(a, 0) == a
  {
    if a != 0 {
      OrZero(a / 2);
    }
  }

  /** Adding a multiple of 2^32 does not change a word. */
  lemma WrapShift(x: int, q: int)
    ensures Wrap(x + 0x1_0000_0000 * q) == Wrap(x)
  {
  }

  lemma WrapMul(a: int, b: int)
    ensures Wrap(a * b) == Wrap(Wrap(a) * Wrap(b))
  {
    var p, q := a / 0x1_0000_0000, b / 0x1_0000_0000;
    var u, v := Wrap(a), Wrap(b);
    calc {
      a * b;
      (u + 0x1_0000_0000 * p) * (v + 0x1_0000_0000 * q);
      u * v + 0x1_0000_0000 * (p * v) + u * (0x1_0000_0000 * q) + 0x1_0000_0000 * p * (0x1_0000_0000 * q);
      u * v + 0x1_0000_0000 * (p * v + u * q + 0x1_0000_0000 * (p * q));
    }
    WrapShift(u * v, p * v + u * q + 0x1_0000_0000 * (p * q));
  }

  lemma WrapAdd(a: int, b: int)
    ensures Wrap(a + b) == Wrap(Wrap(a) + Wrap(b))
  {
  }

  lemma WrapWord(x: Word)
    ensures Wrap(x) == x
  {
  }

  lemma WrapSigned(x: int)
    ensures Wrap(Signed(x)) == Wrap(x)
  {
  }
}
