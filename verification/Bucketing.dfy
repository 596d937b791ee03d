/** String hashing through the reused scratch buffer, and the bucket of a context. */
module Bucketing {
  import opened Text
  import opened Words
  import Murmur
  import MurmurJs
  import MurmurJava
  import MurmurGo
  import Utf8

  const BUCKET_SPACE: nat := 100_000

  const SEPARATOR: JsString := [COLON]

  /** The module-level state of the string hash. */
  class StringHasher {
    var scratch: array<Byte>

    constructor ()
      ensures fresh(scratch) && scratch.Length == 512
    {
      scratch := new Byte[512];
    }

    /** The hash of the string's exact UTF-8 bytes, whatever the buffer held before and however often it was used. */
    method HashString(input: JsString, seed: int) returns (hash: int)
      modifies this, scratch
      ensures scratch == old(scratch) || fresh(scratch)
      ensures scratch.Length >= old(scratch.Length) && scratch.Length >= 3 * |input|
      ensures hash == StringHash(input, seed)
    {
      hide Murmur.Hash, Utf8.Encode, Wrap, MurmurJs.Prefix;
      Utf8.EncodedLength(input);
      var upperBound := |input| * 3;
      if scratch.Length < upperBound {
        scratch := new Byte[if upperBound >= scratch.Length * 2 then upperBound else scratch.Length * 2];
      }
      var written := Utf8.EncodeInto(input, scratch);
      hash := MurmurJs.Hash32(scratch, seed, Some(written));
      CutOfCut(scratch[..], written);
    }

    method Bucket(flagKey: JsString, salt: JsString, bucketKey: JsString) returns (bucket: int)
      modifies this, scratch
      ensures scratch == old(scratch) || fresh(scratch)
      ensures bucket == BucketFor(flagKey, salt, bucketKey)
    {
      bucket := HashString(BucketingInput(flagKey, salt, bucketKey), 0);
      bucket := bucket % BUCKET_SPACE;
    }
  }

  /** The TypeScript hash of a string; its length counts modulo 2^32, so a longer encoding is cut to that. */
  function StringHash(input: JsString, seed: int): Word {
    var bytes := Utf8.Encode(input);
    Murmur.Hash(MurmurJs.Prefix(bytes, Wrap(|bytes|)), Wrap(seed))
  }

  lemma CutOfCut(data: seq<Byte>, n: nat)
    requires n <= |data|
    ensures MurmurJs.Prefix(data, Wrap(n)) == MurmurJs.Prefix(data[..n], Wrap(n))
  {
    assert data[..n][..Wrap(n)] == data[..Wrap(n)];
  }

  /** Below 2^32 encoded bytes nothing is cut. */
  lemma StringHashIsHashOfEncoding(input: JsString, seed: int)
    requires |Utf8.Encode(input)| < 0x1_0000_0000
    ensures StringHash(input, seed) == Murmur.Hash(Utf8.Encode(input), Wrap(seed))
  {
    var bytes := Utf8.Encode(input);
    WrapWord(|bytes|);
    assert MurmurJs.Prefix(bytes, |bytes|) == bytes;
  }

  function BucketingInput(flagKey: JsString, salt: JsString, bucketKey: JsString): JsString {
    flagKey + SEPARATOR + salt + SEPARATOR + bucketKey
  }

  /** Where a hashed byte string falls in the bucket space. */
  function BucketOfBytes(data: seq<Byte>): (bucket: nat)
    ensures bucket < BUCKET_SPACE
  {
    Murmur.Hash(data, 0) % BUCKET_SPACE
  }

  function BucketFor(flagKey: JsString, salt: JsString, bucketKey: JsString): (bucket: nat)
    ensures bucket < BUCKET_SPACE
  {
    StringHash(BucketingInput(flagKey, salt, bucketKey), 0) % BUCKET_SPACE
  }

  /** The bucket of a context is that of the encoded input, which every port hashes. */
  lemma BucketIsOfEncoding(flagKey: JsString, salt: JsString, bucketKey: JsString)
    requires |Utf8.Encode(BucketingInput(flagKey, salt, bucketKey))| < 0x1_0000_0000
    ensures BucketFor(flagKey, salt, bucketKey) == BucketOfBytes(Utf8.Encode(BucketingInput(flagKey, salt, bucketKey)))
  {
    hide StringHash;
    StringHashIsHashOfEncoding(BucketingInput(flagKey, salt, bucketKey), 0);
    WrapWord(0);
  }

  /**
   * The three ports on the same bytes: the TypeScript one through its typed array, the
   * Java one through sign-extended bytes and a widened result, the Go one natively.
   */
  method BucketInEveryPort(data: array<Byte>, signed: array<MurmurJava.SignedByte>)
    returns (js: int, java: int, go: int)
    requires data.Length < 0x8000_0000
    requires MurmurJava.Unsigned(signed[..]) == data[..]
    ensures js == java == go == BucketOfBytes(data[..])
    ensures 0 <= js < BUCKET_SPACE
  {
    js := MurmurJs.Hash32(data, 0, None);
    WrapWord(data.Length);
    assert MurmurJs.Prefix(data[..], data.Length) == data[..];
    assert |signed[..]| == |data[..]|;
    java := MurmurJava.Hash32(signed, 0);
    go := MurmurGo.Hash32(data, 0);
    js, java, go := js % BUCKET_SPACE, java % BUCKET_SPACE, go % BUCKET_SPACE;
  }

  /** Without separators in the first two parts, the joined input determines all three parts. */
  lemma JoinUnambiguous(f1: JsString, s1: JsString, b1: JsString, f2: JsString, s2: JsString, b2: JsString)
    requires COLON !in f1 && COLON !in s1 && COLON !in f2 && COLON !in s2
    requires BucketingInput(f1, s1, b1) == BucketingInput(f2, s2, b2)
    ensures f1 == f2 && s1 == s2 && b1 == b2
  {
    assert BucketingInput(f1, s1, b1) == f1 + SEPARATOR + (s1 + SEPARATOR + b1);
    assert BucketingInput(f2, s2, b2) == f2 + SEPARATOR + (s2 + SEPARATOR + b2);
    SplitAtSeparator(f1, s1 + SEPARATOR + b1, f2, s2 + SEPARATOR + b2);
    SplitAtSeparator(s1, b1, s2, b2);
  }

  lemma SplitAtSeparator(a1: JsString, r1: JsString, a2: JsString, r2: JsString)
    requires COLON !in a1 && COLON !in a2
    requires a1 + SEPARATOR + r1 == a2 + SEPARATOR + r2
    ensures a1 == a2 && r1 == r2
  {
    var t := a1 + SEPARATOR + r1;
    assert t == a2 + SEPARATOR + r2;
    assert t[|a1|] == COLON && t[|a2|] == COLON;
    forall i | 0 <= i < |a1| ensures t[i] == a1[i] != COLON {}
    forall i | 0 <= i < |a2| ensures t[i] == a2[i] != COLON {}
    assert |a1| == |a2|;
    assert a1 == t[..|a1|] && a2 == t[..|a2|];
    assert r1 == t[|a1| + 1..] && r2 == (a2 + SEPARATOR + r2)[|a2| + 1..];
  }
}
