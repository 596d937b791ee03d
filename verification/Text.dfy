/** Code units, bytes and decimal numerals, shared by the TypeScript and the Go parts of the model. */
module Text {

  /** One UTF-16 code unit. */
  type CodeUnit = x: int | 0 <= x < 0x10000

  /** One byte; a byte is also usable as a code unit. */
  type Byte = x: CodeUnit | x < 0x100

  /** A JavaScript string. */
  type JsString = seq<CodeUnit>

  datatype Option<+T> = None | Some(value: T) {
    function GetOr(default: T): T {
      if Some? then value else default
    }
  }

  function At(data: seq<Byte>, i: nat): (r: nat)
    requires i < |data|
    ensures r < 0x100
  {
    data[i]
  }

  const ZERO_DIGIT: Byte := 48
  const COLON: Byte := 58

  predicate IsDigit(c: CodeUnit) {
    48 <= c <= 57
  }

  /** The decimal numeral of n, without leading zeros. */
  function Decimal(n: nat): (r: seq<Byte>)
    ensures r != [] && forall c <- r :: IsDigit(c)
  {
    if n < 10 then [48 + n] else Decimal(n / 10) + [48 + n % 10]
  }

  /** The value of a numeral read left to right. */
  function DigitsValue(digits: seq<Byte>): nat
    requires forall c <- digits :: IsDigit(c)
  {
    if digits == [] then 0
    else
      var last: int := digits[|digits| - 1];
      assert IsDigit(digits[|digits| - 1]);
      DigitsValue(digits[..|digits| - 1]) * 10 + (last - 48)
  }

  /** Reading a printed number gives the number back. */
  lemma {:induction false} DecimalRoundTrip(n: nat)
    ensures DigitsValue(Decimal(n)) == n
  {
    if n < 10 {
      assert Decimal(n)[..0] == [];
    } else {
      DecimalRoundTrip(n / 10);
      assert Decimal(n)[..|Decimal(n)| - 1] == Decimal(n / 10);
    }
  }
}
