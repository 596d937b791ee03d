/**
 * UTF-16 to UTF-8, as TextEncoder does it: unpaired surrogates become U+FFFD,
 * every other scalar value takes one to four bytes (section 3 of RFC 3629).
 */
module Utf8 {
  import opened Text

  type Scalar = x: int | 0 <= x < 0xd800 || 0xe000 <= x < 0x11_0000

  const REPLACEMENT: Scalar := 0xfffd

  predicate IsHighSurrogate(u: CodeUnit) {
    0xd800 <= u < 0xdc00
  }

  predicate IsLowSurrogate(u: CodeUnit) {
    0xdc00 <= u < 0xe000
  }

  /** How many code units the first scalar value takes. */
  function UnitsOfFirst(s: JsString): (n: nat)
    requires s != []
    ensures 1 <= n <= 2 && n <= |s|
  {
    if IsHighSurrogate(s[0]) && |s| > 1 && IsLowSurrogate(s[1]) then 2 else 1
  }

  function FirstScalar(s: JsString): Scalar
    requires s != []
  {
    if UnitsOfFirst(s) == 2 then
      var high: int, low: int := s[0], s[1];
      0x1_0000 + (high - 0xd800) * 0x400 + (low - 0xdc00)
    else if IsHighSurrogate(s[0]) || IsLowSurrogate(s[0]) then REPLACEMENT
    else s[0]
  }

  /** The scalar values of a JavaScript string. */
  function Scalars(s: JsString): seq<Scalar> {
    if s == [] then [] else [FirstScalar(s)] + Scalars(s[UnitsOfFirst(s)..])
  }

  function EncodeScalar(c: Scalar): (r: seq<Byte>)
    ensures 1 <= |r| <= 4
    ensures |r| <= 3 || c >= 0x1_0000
  {
    if c < 0x80 then [c]
    else if c < 0x800 then [0xc0 + c / 0x40, 0x80 + c % 0x40]
    else if c < 0x1_0000 then [0xe0 + c / 0x1000, 0x80 + c / 0x40 % 0x40, 0x80 + c % 0x40]
    else [0xf0 + c / 0x4_0000, 0x80 + c / 0x1000 % 0x40, 0x80 + c / 0x40 % 0x40, 0x80 + c % 0x40]
  }

  function Encode(s: JsString): seq<Byte> {
    if s == [] then [] else EncodeScalar(FirstScalar(s)) + Encode(s[UnitsOfFirst(s)..])
  }

  /** A reader of UTF-8: the number of bytes announced by the first byte, and the value they carry. */
  function LengthFromLead(b: nat): nat {
    if b < 0x80 then 1 else if b < 0xe0 then 2 else if b < 0xf0 then 3 else 4
  }

  function DecodeFirst(data: seq<Byte>): int
    requires data != [] && LengthFromLead(data[0]) <= |data|
  {
    var n := LengthFromLead(data[0]);
    if n == 1 then At(data, 0)
    else if n == 2 then (At(data, 0) - 0xc0) * 0x40 + (At(data, 1) - 0x80)
    else if n == 3 then (At(data, 0) - 0xe0) * 0x1000 + (At(data, 1) - 0x80) * 0x40 + (At(data, 2) - 0x80)
    else
      (At(data, 0) - 0xf0) * 0x4_0000 + (At(data, 1) - 0x80) * 0x1000
      + (At(data, 2) - 0x80) * 0x40 + (At(data, 3) - 0x80)
  }

  function Decode(data: seq<Byte>): Option<seq<int>> {
    if data == [] then Some([])
    else if LengthFromLead(data[0]) > |data| then None
    else
      match Decode(data[LengthFromLead(data[0])..])
      case None => None
      case Some(rest) => Some([DecodeFirst(data)] + rest)
  }

  lemma TwoDigits(c: nat)
    ensures c == c / 0x40 * 0x40 + c % 0x40
  {
  }

  lemma ThreeDigits(c: nat)
    ensures c == c / 0x1000 * 0x1000 + c / 0x40 % 0x40 * 0x40 + c % 0x40
  {
  }

  lemma DivideTwice(c: nat)
    ensures c / 0x40 / 0x1000 == c / 0x4_0000 && c / 0x40 / 0x40 == c / 0x1000
  {
  }

  lemma FourDigits(c: nat)
    ensures c == c / 0x4_0000 * 0x4_0000 + c / 0x1000 % 0x40 * 0x1000 + c / 0x40 % 0x40 * 0x40 + c % 0x40
  {
    DivideTwice(c);
    TwoDigits(c);
    ThreeDigits(c / 0x40);
  }

  /** Only the bytes announced by the first one matter. */
  lemma DecodeFirstOf(e: seq<Byte>, rest: seq<Byte>)
    requires e != [] && LengthFromLead(e[0]) == |e|
    ensures LengthFromLead((e + rest)[0]) == |e| && DecodeFirst(e + rest) == DecodeFirst(e)
  {
    hide LengthFromLead;
    assert forall i :: 0 <= i < |e| ==> At(e + rest, i) == At(e, i);
  }

  lemma LeadAnnounces(c: Scalar)
    ensures LengthFromLead(EncodeScalar(c)[0]) == |EncodeScalar(c)|
  {
  }

  lemma ScalarRoundTrip(c: Scalar, rest: seq<Byte>)
    ensures var data := EncodeScalar(c) + rest;
            && LengthFromLead(data[0]) == |EncodeScalar(c)|
            && DecodeFirst(data) == c
  {
    LeadAnnounces(c);
    DecodeFirstOf(EncodeScalar(c), rest);
    hide LengthFromLead;
    if 0x80 <= c < 0x800 {
      TwoDigits(c);
    } else if c < 0x1_0000 {
      ThreeDigits(c);
    } else {
      FourDigits(c);
    }
  }

  /**
   * Decoding the bytes of a string gives exactly its scalar values, so the bytes lose nothing but unpaired
   * surrogates.
   */
  lemma {:induction false} EncodeRoundTrip(s: JsString)
    ensures Decode(Encode(s)) == Some(Scalars(s))
  {
    if s != [] {
      var rest := Encode(s[UnitsOfFirst(s)..]);
      var e := EncodeScalar(FirstScalar(s));
      ScalarRoundTrip(FirstScalar(s), rest);
      assert (e + rest)[|e|..] == rest;
      EncodeRoundTrip(s[UnitsOfFirst(s)..]);
    }
  }

  /**
   * The bound the scratch buffer relies on: a surrogate pair is two units and four bytes, anything else at most
   * three.
   */
  lemma {:induction false} EncodedLength(s: JsString)
    ensures |Encode(s)| <= 3 * |s|
  {
    if s != [] {
      EncodedLength(s[UnitsOfFirst(s)..]);
    }
  }

  method WriteAt(target: array<Byte>, start: nat, bytes: seq<Byte>)
    requires start + |bytes| <= target.Length
    modifies target
    ensures target[..] == old(target[..start]) + bytes + old(target[start + |bytes|..])
  {
    for i := 0 to |bytes|
      invariant target[..start] == old(target[..start])
      invariant target[start..start + i] == bytes[..i]
      invariant target[start + i..] == old(target[start + i..])
    {
      target[start + i] := bytes[i];
    }
    assert target[..] == target[..start] + target[start..start + |bytes|] + target[start + |bytes|..];
  }

  /** TextEncoder.encodeInto: writes whole scalar values while they fit and reports how many bytes were written. */
  method EncodeInto(input: JsString, target: array<Byte>) returns (written: nat)
    modifies target
    ensures written <= target.Length
    ensures target[..written] <= Encode(input)
    ensures |Encode(input)| <= target.Length ==> target[..written] == Encode(input)
    ensures target[written..] == old(target[written..])
  {
    hide EncodeScalar, FirstScalar, UnitsOfFirst, Encode;
    EncodeNothing();
    ghost var stale := target[..];
    ghost var done: seq<Byte> := [];
    var read := 0;
    written := 0;
    while read < |input|
      invariant read <= |input| && written == |done| <= target.Length
      invariant done + Encode(input[read..]) == Encode(input)
      invariant target[..] == done + stale[written..]
      invariant read == |input| ==> done == Encode(input)
      decreases |input| - read
    {
      var rest := input[read..];
      var bytes := EncodeScalar(FirstScalar(rest));
      StepOver(input, read, done);
      if written + |bytes| > target.Length {
        assert |Encode(input)| > target.Length;
        break;
      }
      WriteAt(target, written, bytes);
      assert target[..] == (done + bytes) + stale[written + |bytes|..];
      done := done + bytes;
      written := written + |bytes|;
      read := read + UnitsOfFirst(rest);
      assert read == |input| ==> input[read..] == [];
    }
    Overwritten(target[..], done, stale);
    assert target[..written] == target[..][..written] && target[written..] == target[..][written..];
  }

  lemma Overwritten(now: seq<Byte>, done: seq<Byte>, stale: seq<Byte>)
    requires |done| <= |stale| && now == done + stale[|done|..]
    ensures now[..|done|] == done && now[|done|..] == stale[|done|..]
  {
  }

  lemma EncodeNothing()
    ensures Encode([]) == []
  {
  }

  lemma StepOver(input: JsString, read: nat, done: seq<Byte>)
    requires read < |input|
    ensures var rest := input[read..];
            done + Encode(rest) == done + EncodeScalar(FirstScalar(rest)) + Encode(input[read + UnitsOfFirst(rest)..])
  {
    var rest := input[read..];
    assert rest[UnitsOfFirst(rest)..] == input[read + UnitsOfFirst(rest)..];
  }
}
