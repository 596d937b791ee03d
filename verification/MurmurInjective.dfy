/**
 * What the hash never collides on: every stage is a bijection on words, so two
 * inputs of equal length that differ only inside one block, or only inside the
 * tail, always have different hashes.
 */
module MurmurInjective {
  import opened Text
  import opened Words
  import opened Murmur

  /** Multiplying by a constant that has an inverse modulo 2^32 can be undone. */
  lemma TimesUndone(a: Word, c: Word, inverse: Word, q: nat)
    requires c * inverse == 1 + 0x1_0000_0000 * q
    ensures Wrap(Times(a, c) * inverse) == a
  {
    calc {
      Wrap(Wrap(a * c) * inverse);
      { WrapMul(a * c, inverse); WrapMul(Wrap(a * c), inverse); WrapWord(Wrap(a * c)); }
      Wrap(a * c * inverse);
      { assert a * c * inverse == a * (c * inverse) == a * (1 + 0x1_0000_0000 * q) == a + 0x1_0000_0000 * (a * q); }
      Wrap(a + 0x1_0000_0000 * (a * q));
      { WrapShift(a, a * q); WrapWord(a); }
      a;
    }
  }

  lemma TimesInjective(a: Word, b: Word, c: Word)
    requires c in {C1, C2, 5, FINAL1, FINAL2}
    requires Times(a, c) == Times(b, c)
    ensures a == b
  {
    var (inverse, q) :=
      if c == C1 then (0xdee13bb1, 2988782088)
      else if c == C2 then (0x56ed309b, 156822886)
      else if c == 5 then (0xcccccccd, 4)
      else if c == FINAL1 then (0xa5cb9243, 1455126516)
      else (0x7ed1b41d, 1618177690);
    TimesUndone(a, c, inverse, q);
    TimesUndone(b, c, inverse, q);
  }

  lemma HalvesDetermined(high1: nat, low1: nat, high2: nat, low2: nat, m: nat)
    requires low1 < m && low2 < m && high1 * m + low1 == high2 * m + low2
    ensures high1 == high2 && low1 == low2
  {
    if high1 > high2 {
      NextHigh(high2, high1, m);
    } else if high1 < high2 {
      NextHigh(high1, high2, m);
    }
  }

  lemma NextHigh(a: nat, b: nat, m: nat)
    requires a < b
    ensures a * m + m <= b * m
  {
    var d := b - a - 1;
    assert b * m == (a + 1 + d) * m == a * m + m + d * m;
  }

  lemma Rotate15Injective(a: Word, b: Word)
    requires Rotate15(a) == Rotate15(b)
    ensures a == b
  {
    HalvesDetermined(a % 0x2_0000, a / 0x2_0000, b % 0x2_0000, b / 0x2_0000, 0x8000);
  }

  lemma Rotate13Injective(a: Word, b: Word)
    requires Rotate13(a) == Rotate13(b)
    ensures a == b
  {
    HalvesDetermined(a % 0x8_0000, a / 0x8_0000, b % 0x8_0000, b / 0x8_0000, 0x2000);
  }

  lemma XorInjective(a: Word, b: Word, c: Word)
    requires XorWord(a, c) == XorWord(b, c)
    ensures a == b
  {
    XorCancels(a, c);
    XorCancels(b, c);
  }

  lemma XorRightInjective(a: Word, b: Word, c: Word)
    requires XorWord(c, a) == XorWord(c, b)
    ensures a == b
  {
    XorCommutes(c, a);
    XorCommutes(c, b);
    XorInjective(a, b, c);
  }

  /** Shifting far enough leaves nothing. */
  lemma ShiftedOut(x: Word, n: nat)
    requires n >= 32
    ensures ShiftRight(x, n) == 0
  {
    Pow2At32();
    ShiftTwice(x, 32, n - 32);
    ShiftIsDivision(x, 32);
    ShiftOfZero(n - 32);
  }

  lemma {:induction false} ShiftOfZero(n: nat)
    ensures ShiftRight(0, n) == 0
  {
    if n > 0 {
      ShiftOfZero(n - 1);
    }
  }

  /** The word is recovered from its xor-shift by at least 11 positions, top bits first. */
  lemma XorShiftedInjective(a: Word, b: Word, n: nat)
    requires 11 <= n && XorShifted(a, n) == XorShifted(b, n)
    ensures a == b
  {
    hide Xor, ShiftRight;
    var y := XorShifted(a, n);
    TopBits(a, n);
    TopBits(b, n);
    XorCancels(a, ShiftRight(a, n));
    XorCancels(b, ShiftRight(b, n));
  }

  /** The bits of x above position n are computed from its xor-shift alone. */
  lemma TopBits(x: Word, n: nat)
    requires 11 <= n
    ensures ShiftRight(x, n) == Xor(ShiftRight(XorShifted(x, n), n), ShiftRight(XorShifted(x, n), 2 * n))
  {
    hide Xor, ShiftRight;
    var y := XorShifted(x, n);
    var s1, s2 := ShiftRight(x, n), ShiftRight(x, 2 * n);
    ShiftTwice(x, n, n);
    ShiftTwice(x, n, 2 * n);
    ShiftedOut(x, 3 * n);
    XorShift(x, s1, n);
    assert ShiftRight(y, n) == Xor(s1, s2);
    XorShift(x, s1, 2 * n);
    XorZero(s2);
    assert ShiftRight(y, 2 * n) == s2;
    XorCancels(s1, s2);
  }

  lemma ScrambleInjective(a: Word, b: Word)
    requires Scramble(a) == Scramble(b)
    ensures a == b
  {
    hide Times, Rotate15;
    TimesInjective(Rotate15(Times(a, C1)), Rotate15(Times(b, C1)), C2);
    Rotate15Injective(Times(a, C1), Times(b, C1));
    TimesInjective(a, b, C1);
  }

  lemma AddRoundInjective(x: Word, y: Word)
    requires Wrap(x + ROUND) == Wrap(y + ROUND)
    ensures x == y
  {
  }

  lemma ChainUndone(h1: Word, k1: Word, h2: Word, k2: Word)
    requires Chain(h1, k1) == Chain(h2, k2)
    ensures XorWord(h1, k1) == XorWord(h2, k2)
  {
    hide Times, Rotate13, XorWord, Wrap;
    var x, y := XorWord(h1, k1), XorWord(h2, k2);
    AddRoundInjective(Times(Rotate13(x), 5), Times(Rotate13(y), 5));
    TimesInjective(Rotate13(x), Rotate13(y), 5);
    Rotate13Injective(x, y);
  }

  lemma FinishInjective(a: Word, b: Word)
    requires Finish(a) == Finish(b)
    ensures a == b
  {
    hide Times, XorShifted;
    var a1, b1 := XorShifted(a, 16), XorShifted(b, 16);
    var a2, b2 := Times(a1, FINAL1), Times(b1, FINAL1);
    var a3, b3 := XorShifted(a2, 13), XorShifted(b2, 13);
    XorShiftedInjective(Times(a3, FINAL2), Times(b3, FINAL2), 16);
    TimesInjective(a3, b3, FINAL2);
    XorShiftedInjective(a2, b2, 13);
    TimesInjective(a1, b1, FINAL1);
    XorShiftedInjective(a, b, 16);
  }

  lemma {:induction false} PrefixDecidesBlocks(d1: seq<Byte>, d2: seq<Byte>, n: nat, seed: Word)
    requires 4 * n <= |d1| && 4 * n <= |d2| && d1[..4 * n] == d2[..4 * n]
    ensures HashBlocks(d1, n, seed) == HashBlocks(d2, n, seed)
  {
    hide Chain, Scramble;
    if n > 0 {
      assert d1[..4 * (n - 1)] == d1[..4 * n][..4 * (n - 1)];
      assert d2[..4 * (n - 1)] == d2[..4 * n][..4 * (n - 1)];
      PrefixDecidesBlocks(d1, d2, n - 1, seed);
      SameBlock(d1, d2, n - 1);
    }
  }

  lemma SameBlock(d1: seq<Byte>, d2: seq<Byte>, i: nat)
    requires 4 * i + 4 <= |d1| && 4 * i + 4 <= |d2|
    requires forall j :: 4 * i <= j < 4 * i + 4 ==> d1[j] == d2[j]
    ensures Block(d1, i) == Block(d2, i)
  {
  }

  lemma BlockInjective(d1: seq<Byte>, d2: seq<Byte>, i: nat)
    requires 4 * i + 4 <= |d1| && 4 * i + 4 <= |d2| && Block(d1, i) == Block(d2, i)
    ensures forall j :: 4 * i <= j < 4 * i + 4 ==> d1[j] == d2[j]
  {
    FourDigits(At(d1, 4 * i), At(d1, 4 * i + 1), At(d1, 4 * i + 2), At(d1, 4 * i + 3),
               At(d2, 4 * i), At(d2, 4 * i + 1), At(d2, 4 * i + 2), At(d2, 4 * i + 3));
    forall j | 4 * i <= j < 4 * i + 4 ensures d1[j] == d2[j] {
      assert j == 4 * i || j == 4 * i + 1 || j == 4 * i + 2 || j == 4 * i + 3;
    }
  }

  lemma FourDigits(a0: nat, a1: nat, a2: nat, a3: nat, b0: nat, b1: nat, b2: nat, b3: nat)
    requires a0 < 0x100 && a1 < 0x100 && a2 < 0x100 && b0 < 0x100 && b1 < 0x100 && b2 < 0x100
    requires a0 + 0x100 * a1 + 0x1_0000 * a2 + 0x100_0000 * a3 == b0 + 0x100 * b1 + 0x1_0000 * b2 + 0x100_0000 * b3
    ensures a0 == b0 && a1 == b1 && a2 == b2 && a3 == b3
  {
  }

  lemma SliceOfSlice(d: seq<Byte>, a: nat, b: nat, c: nat)
    requires a <= b <= c <= |d|
    ensures d[a..b] == d[a..c][..b - a]
  {
  }

  /** Sequences that agree outside a range and differ do so inside it. */
  lemma DifferInside(d1: seq<Byte>, d2: seq<Byte>, lo: nat, hi: nat) returns (j: nat)
    requires lo <= hi <= |d1| == |d2|
    requires d1[..lo] == d2[..lo] && d1[hi..] == d2[hi..] && d1 != d2
    ensures lo <= j < hi && d1[j] != d2[j]
  {
    forall k | 0 <= k < lo ensures d1[k] == d2[k] {
      assert d1[k] == d1[..lo][k] && d2[k] == d2[..lo][k];
    }
    forall k | hi <= k < |d1| ensures d1[k] == d2[k] {
      assert d1[k] == d1[hi..][k - hi] && d2[k] == d2[hi..][k - hi];
    }
    if forall k | lo <= k < hi :: d1[k] == d2[k] {
      assert false;
    }
    j :| lo <= j < hi && d1[j] != d2[j];
  }

  /** Once the running hashes differ, equal blocks keep them different. */
  lemma {:induction false} DifferenceSurvives(d1: seq<Byte>, d2: seq<Byte>, m: nat, n: nat, seed1: Word, seed2: Word)
    requires m <= n && 4 * n <= |d1| && 4 * n <= |d2|
    requires d1[4 * m..4 * n] == d2[4 * m..4 * n]
    requires HashBlocks(d1, m, seed1) != HashBlocks(d2, m, seed2)
    ensures HashBlocks(d1, n, seed1) != HashBlocks(d2, n, seed2)
    decreases n
  {
    hide Chain, Scramble, Block, XorWord;
    if m < n {
      SliceOfSlice(d1, 4 * m, 4 * (n - 1), 4 * n);
      SliceOfSlice(d2, 4 * m, 4 * (n - 1), 4 * n);
      DifferenceSurvives(d1, d2, m, n - 1, seed1, seed2);
      forall j | 4 * (n - 1) <= j < 4 * n ensures d1[j] == d2[j] {
        assert d1[j] == d1[4 * m..4 * n][j - 4 * m];
        assert d2[j] == d2[4 * m..4 * n][j - 4 * m];
      }
      SameBlock(d1, d2, n - 1);
      var h1, h2 := HashBlocks(d1, n - 1, seed1), HashBlocks(d2, n - 1, seed2);
      var k := Scramble(Block(d1, n - 1));
      if Chain(h1, k) == Chain(h2, k) {
        ChainUndone(h1, k, h2, k);
        XorInjective(h1, h2, k);
      }
    }
  }

  /** Different bodies of equal length have different hashes. */
  lemma HashesDiffer(d1: seq<Byte>, d2: seq<Byte>, seed1: Word, seed2: Word)
    requires |d1| == |d2|
    requires HashBody(d1, seed1) != HashBody(d2, seed2)
    ensures Hash(d1, seed1) != Hash(d2, seed2)
  {
    hide Finish, XorWord, HashBody, Wrap;
    var a, b := HashBody(d1, seed1), HashBody(d2, seed2);
    if Hash(d1, seed1) == Hash(d2, seed2) {
      FinishInjective(XorWord(a, Wrap(|d1|)), XorWord(b, Wrap(|d1|)));
      XorInjective(a, b, Wrap(|d1|));
    }
  }

  lemma SameTail(d1: seq<Byte>, d2: seq<Byte>)
    requires |d1| == |d2| && d1[|d1| - |d1| % 4..] == d2[|d1| - |d1| % 4..]
    ensures TailValue(d1) == TailValue(d2)
  {
    var o := |d1| - |d1| % 4;
    forall j | o <= j < |d1| ensures d1[j] == d2[j] {
      assert d1[j] == d1[o..][j - o];
      assert d2[j] == d2[o..][j - o];
    }
  }

  /** Equal tails keep running hashes apart. */
  lemma TailKeepsDifference(d1: seq<Byte>, d2: seq<Byte>, seed1: Word, seed2: Word)
    requires |d1| == |d2| && d1[|d1| - |d1| % 4..] == d2[|d1| - |d1| % 4..]
    requires HashBlocks(d1, |d1| / 4, seed1) != HashBlocks(d2, |d2| / 4, seed2)
    ensures HashBody(d1, seed1) != HashBody(d2, seed2)
  {
    hide HashBlocks, Scramble, TailValue, XorWord;
    SameTail(d1, d2);
    var h1, h2 := HashBlocks(d1, |d1| / 4, seed1), HashBlocks(d2, |d2| / 4, seed2);
    var k := Scramble(TailValue(d1));
    if XorWord(h1, k) == XorWord(h2, k) {
      XorInjective(h1, h2, k);
    }
  }

  /** Inputs of equal length that differ only inside one aligned block never collide. */
  lemma BlockChangeNeverCollides(d1: seq<Byte>, d2: seq<Byte>, i: nat, seed: Word)
    requires |d1| == |d2| && 4 * i + 4 <= |d1|
    requires d1[..4 * i] == d2[..4 * i] && d1[4 * i + 4..] == d2[4 * i + 4..] && d1 != d2
    ensures Hash(d1, seed) != Hash(d2, seed)
  {
    hide Hash, HashBody, Chain, Scramble, Block, XorWord;
    var n := |d1| / 4;
    PrefixDecidesBlocks(d1, d2, i, seed);
    var h := HashBlocks(d1, i, seed);
    var k1, k2 := Block(d1, i), Block(d2, i);
    var j := DifferInside(d1, d2, 4 * i, 4 * i + 4);
    if k1 == k2 {
      BlockInjective(d1, d2, i);
    }
    if Chain(h, Scramble(k1)) == Chain(h, Scramble(k2)) {
      ChainUndone(h, Scramble(k1), h, Scramble(k2));
      XorRightInjective(Scramble(k1), Scramble(k2), h);
      ScrambleInjective(k1, k2);
    }
    var e := 4 * i + 4;
    assert d1[e..4 * n] == d1[e..][..4 * n - e] && d2[e..4 * n] == d2[e..][..4 * n - e];
    DifferenceSurvives(d1, d2, i + 1, n, seed, seed);
    assert d1[4 * n..] == d1[e..][4 * n - e..] && d2[4 * n..] == d2[e..][4 * n - e..];
    TailKeepsDifference(d1, d2, seed, seed);
    HashesDiffer(d1, d2, seed, seed);
  }

  /** Inputs of equal length that differ only inside the tail never collide. */
  lemma TailChangeNeverCollides(d1: seq<Byte>, d2: seq<Byte>, seed: Word)
    requires |d1| == |d2|
    requires d1[..|d1| - |d1| % 4] == d2[..|d1| - |d1| % 4] && d1 != d2
    ensures Hash(d1, seed) != Hash(d2, seed)
  {
    hide Hash, Scramble, XorWord, HashBlocks;
    var o := |d1| - |d1| % 4;
    PrefixDecidesBlocks(d1, d2, |d1| / 4, seed);
    var k1, k2 := TailValue(d1), TailValue(d2);
    var j := DifferInside(d1, d2, o, |d1|);
    if k1 == k2 {
      TailInjective(d1, d2);
    }
    var h := HashBlocks(d1, |d1| / 4, seed);
    if XorWord(h, Scramble(k1)) == XorWord(h, Scramble(k2)) {
      XorRightInjective(Scramble(k1), Scramble(k2), h);
      ScrambleInjective(k1, k2);
    }
    HashesDiffer(d1, d2, seed, seed);
  }

  lemma TailInjective(d1: seq<Byte>, d2: seq<Byte>)
    requires |d1| == |d2| && TailValue(d1) == TailValue(d2)
    ensures forall j :: |d1| - |d1| % 4 <= j < |d1| ==> d1[j] == d2[j]
  {
    var n, o := |d1| % 4, |d1| - |d1| % 4;
    FourDigits(
      if n >= 1 then At(d1, o) else 0, if n >= 2 then At(d1, o + 1) else 0, if n >= 3 then At(d1, o + 2) else 0, 0,
      if n >= 1 then At(d2, o) else 0, if n >= 2 then At(d2, o + 1) else 0, if n >= 3 then At(d2, o + 2) else 0, 0);
    forall j | o <= j < |d1| ensures d1[j] == d2[j] {
      assert j == o || j == o + 1 || j == o + 2;
    }
  }

  /** For a fixed input the hash is a bijection of the seed: distinct seeds never collide. */
  lemma SeedChangeNeverCollides(data: seq<Byte>, seed1: Word, seed2: Word)
    requires seed1 != seed2
    ensures Hash(data, seed1) != Hash(data, seed2)
  {
    DifferenceSurvives(data, data, 0, |data| / 4, seed1, seed2);
    TailKeepsDifference(data, data, seed1, seed2);
    HashesDiffer(data, data, seed1, seed2);
  }

  lemma XorShiftedZero(n: nat)
    ensures XorShifted(0, n) == 0
  {
    ShiftOfZero(n);
    XorZero(0);
  }

  /** The published reference vector for the empty string. */
  lemma EmptyStringHashesToZero()
    ensures Hash([], 0) == 0
  {
    hide XorShifted;
    XorZero(0);
    XorShiftedZero(16);
    XorShiftedZero(13);
  }
}
