/** Percentage rollouts: the cumulative walk over a distribution, in the three ports. */
module Rollout {
  import opened Text
  import opened Words
  import opened Bucketing

  /** One slice of a rollout. A JavaScript weight is any number, so it is a real. */
  datatype Slice = Slice(variationKey: JsString, weight: real)

  predicate IsInteger(x: real) {
    x.Floor as real == x
  }

  /** The total weight of the first n slices. */
  function Cumulative(slices: seq<Slice>, n: nat): real
    requires n <= |slices|
  {
    if n == 0 then 0.0 else Cumulative(slices, n - 1) + slices[n - 1].weight
  }

  ghost predicate ValidDistribution(slices: seq<Slice>) {
    && (forall s <- slices :: IsInteger(s.weight) && s.weight >= 0.0)
    && Cumulative(slices, |slices|) == BUCKET_SPACE as real
  }

  /** The index of the slice that a bucket falls into, walking from index i. */
  function SliceFrom(slices: seq<Slice>, bucket: int, i: nat): (r: Option<nat>)
    requires i <= |slices|
    ensures r.Some? ==> i <= r.value < |slices|
    decreases |slices| - i
  {
    if i == |slices| then None
    else if (bucket as real) < Cumulative(slices, i + 1) then Some(i)
    else SliceFrom(slices, bucket, i + 1)
  }

  function SliceFor(slices: seq<Slice>, bucket: int): (r: Option<nat>)
    ensures r.Some? ==> r.value < |slices|
  {
    SliceFrom(slices, bucket, 0)
  }

  function KeyFor(slices: seq<Slice>, bucket: int): (r: Option<JsString>) {
    match SliceFor(slices, bucket)
    case None => None
    case Some(i) => Some(slices[i].variationKey)
  }

  method VariationForBucket(distribution: seq<Slice>, bucket: int) returns (key: Option<JsString>)
    ensures key == KeyFor(distribution, bucket)
  {
    var cumulative := 0.0;
    for i := 0 to |distribution|
      invariant cumulative == Cumulative(distribution, i)
      invariant SliceFor(distribution, bucket) == SliceFrom(distribution, bucket, i)
    {
      cumulative := cumulative + distribution[i].weight;
      if (bucket as real) < cumulative {
        return Some(distribution[i].variationKey);
      }
    }
    return None;
  }

  method IsValidDistribution(distribution: seq<Slice>) returns (valid: bool)
    ensures valid <==> ValidDistribution(distribution)
  {
    if |distribution| == 0 {
      return false;
    }
    var total := 0.0;
    for i := 0 to |distribution|
      invariant total == Cumulative(distribution, i)
      invariant forall j :: 0 <= j < i ==> IsInteger(distribution[j].weight) && distribution[j].weight >= 0.0
    {
      if !IsInteger(distribution[i].weight) || distribution[i].weight < 0.0 {
        assert distribution[i] in distribution;
        return false;
      }
      total := total + distribution[i].weight;
    }
    return total == BUCKET_SPACE as real;
  }

  // ----- what a valid distribution serves

  lemma {:induction false} CumulativeMonotone(slices: seq<Slice>, m: nat, n: nat)
    requires m <= n <= |slices|
    requires forall s <- slices :: s.weight >= 0.0
    ensures Cumulative(slices, m) <= Cumulative(slices, n)
    decreases n
  {
    if m < n {
      CumulativeMonotone(slices, m, n - 1);
      assert slices[n - 1] in slices;
    }
  }

  lemma {:induction false} CumulativeIsInteger(slices: seq<Slice>, n: nat)
    requires n <= |slices|
    requires forall s <- slices :: IsInteger(s.weight)
    ensures IsInteger(Cumulative(slices, n))
  {
    if n > 0 {
      CumulativeIsInteger(slices, n - 1);
      assert slices[n - 1] in slices;
      var a, b := Cumulative(slices, n - 1), slices[n - 1].weight;
      assert a + b == (a.Floor + b.Floor) as real;
    }
  }

  /** A bucket is in slice i exactly when it lies between the cumulative weights around i. */
  lemma {:induction false} SliceFromExact(slices: seq<Slice>, bucket: int, start: nat, i: nat)
    requires start <= i < |slices|
    requires forall s <- slices :: s.weight >= 0.0
    requires Cumulative(slices, start) <= bucket as real
    ensures SliceFrom(slices, bucket, start) == Some(i)
            <==> Cumulative(slices, i) <= bucket as real < Cumulative(slices, i + 1)
    decreases |slices| - start
  {
    if (bucket as real) < Cumulative(slices, start + 1) {
      if start < i {
        CumulativeMonotone(slices, start + 1, i);
      }
    } else if start < i {
      SliceFromExact(slices, bucket, start + 1, i);
    } else {
      assert SliceFrom(slices, bucket, start) == SliceFrom(slices, bucket, start + 1);
    }
  }

  /** With non-negative weights the walk serves a bucket exactly from the slice whose range contains it. */
  lemma SliceExact(slices: seq<Slice>, bucket: nat, i: nat)
    requires i < |slices|
    requires forall s <- slices :: s.weight >= 0.0
    ensures SliceFor(slices, bucket) == Some(i) <==> Cumulative(slices, i) <= bucket as real < Cumulative(slices, i + 1)
  {
    SliceFromExact(slices, bucket, 0, i);
  }

  lemma {:induction false} WalkEndsBeyondTotal(slices: seq<Slice>, bucket: int, start: nat)
    requires start <= |slices|
    requires forall s <- slices :: s.weight >= 0.0
    ensures SliceFrom(slices, bucket, start) == None ==>
            start == |slices| || Cumulative(slices, |slices|) <= bucket as real
    decreases |slices| - start
  {
    if start < |slices| {
      WalkEndsBeyondTotal(slices, bucket, start + 1);
    }
  }

  /** A bucket gets nothing exactly when all weights together do not exceed it. */
  lemma UnservedExactly(slices: seq<Slice>, bucket: nat)
    requires forall s <- slices :: s.weight >= 0.0
    ensures KeyFor(slices, bucket).None? <==> Cumulative(slices, |slices|) <= bucket as real
  {
    WalkEndsBeyondTotal(slices, bucket, 0);
    if SliceFor(slices, bucket).Some? {
      var i := SliceFor(slices, bucket).value;
      SliceExact(slices, bucket, i);
      CumulativeMonotone(slices, i + 1, |slices|);
    }
  }

  /** Every bucket of the space is served from some slice of a valid distribution. */
  lemma EveryBucketServed(slices: seq<Slice>, bucket: nat)
    requires ValidDistribution(slices) && bucket < BUCKET_SPACE
    ensures KeyFor(slices, bucket).Some?
    ensures exists s <- slices :: KeyFor(slices, bucket) == Some(s.variationKey)
  {
    WalkEndsBeyondTotal(slices, bucket, 0);
    var i := SliceFor(slices, bucket).value;
    assert slices[i] in slices;
  }

  predicate DistinctKeys(slices: seq<Slice>) {
    forall i, j :: 0 <= i < j < |slices| ==> slices[i].variationKey != slices[j].variationKey
  }

  function IntegersIn(lo: int, hi: int): (r: set<int>)
    requires lo <= hi
    ensures forall x :: x in r <==> lo <= x < hi
    ensures |r| == hi - lo
    decreases hi - lo
  {
    if lo == hi then {} else IntegersIn(lo, hi - 1) + {hi - 1}
  }

  /** The buckets of the space that are served a variation. */
  function BucketsServed(slices: seq<Slice>, key: JsString): set<int> {
    set b: int | 0 <= b < BUCKET_SPACE && KeyFor(slices, b) == Some(key)
  }

  /** Exactly weight-many of the buckets are served each variation of a valid distribution. */
  lemma RolloutCounts(slices: seq<Slice>, i: nat)
    requires ValidDistribution(slices) && DistinctKeys(slices) && i < |slices|
    ensures |BucketsServed(slices, slices[i].variationKey)| as real == slices[i].weight
  {
    var lo, hi := Cumulative(slices, i), Cumulative(slices, i + 1);
    CumulativeIsInteger(slices, i);
    CumulativeIsInteger(slices, i + 1);
    CumulativeMonotone(slices, 0, i);
    CumulativeMonotone(slices, i, i + 1);
    CumulativeMonotone(slices, i + 1, |slices|);
    forall b: int | 0 <= b < BUCKET_SPACE
      ensures KeyFor(slices, b) == Some(slices[i].variationKey) <==> lo.Floor <= b < hi.Floor
    {
      SliceExact(slices, b, i);
      KeyNamesSlice(slices, b, i);
    }
    assert BucketsServed(slices, slices[i].variationKey) == IntegersIn(lo.Floor, hi.Floor);
  }

  lemma KeyNamesSlice(slices: seq<Slice>, bucket: nat, i: nat)
    requires DistinctKeys(slices) && i < |slices|
    ensures KeyFor(slices, bucket) == Some(slices[i].variationKey) <==> SliceFor(slices, bucket) == Some(i)
  {
  }

  lemma {:induction false} SamePrefixSameCumulative(before: seq<Slice>, after: seq<Slice>, n: nat)
    requires n <= |before| && n <= |after|
    requires forall j :: 0 <= j < n ==> before[j].weight == after[j].weight
    ensures Cumulative(before, n) == Cumulative(after, n)
  {
    if n > 0 {
      SamePrefixSameCumulative(before, after, n - 1);
    }
  }

  /** Growing slice k, with earlier slices unchanged, moves nobody out of the slices up to k. */
  lemma RolloutSticky(before: seq<Slice>, after: seq<Slice>, k: nat, bucket: nat)
    requires k < |before| && k < |after|
    requires (forall s <- before :: s.weight >= 0.0) && (forall s <- after :: s.weight >= 0.0)
    requires forall j :: 0 <= j < k ==> before[j] == after[j]
    requires before[k].variationKey == after[k].variationKey && before[k].weight <= after[k].weight
    requires SliceFor(before, bucket).Some? && SliceFor(before, bucket).value <= k
    ensures SliceFor(after, bucket) == SliceFor(before, bucket)
    ensures KeyFor(after, bucket) == KeyFor(before, bucket)
  {
    var i := SliceFor(before, bucket).value;
    SliceExact(before, bucket, i);
    SliceExact(after, bucket, i);
    SamePrefixSameCumulative(before, after, i);
    if i < k {
      SamePrefixSameCumulative(before, after, i + 1);
    }
  }
}

/** The Java port: 32-bit weights, an int running total and a long total for validation. */
module RolloutJava {
  import opened Text
  import opened Words
  import opened Bucketing
  import opened Rollout

  type Int32 = x: int | -0x8000_0000 <= x < 0x8000_0000
  type Int64 = x: int | -0x8000_0000_0000_0000 <= x < 0x8000_0000_0000_0000

  datatype Distribution = Distribution(variationKey: JsString, weight: Int32)

  function Lift(distribution: seq<Distribution>): (r: seq<Slice>)
    ensures |r| == |distribution|
  {
    seq(|distribution|, i requires 0 <= i < |distribution| =>
      Slice(distribution[i].variationKey, distribution[i].weight as real))
  }

  /** No true total of up to n entries leaves the range of the machine's total. */
  ghost predicate NoOverflowTo(distribution: seq<Distribution>, n: nat)
    requires n <= |distribution|
  {
    forall i :: 0 <= i <= n ==> -0x8000_0000 as real <= Cumulative(Lift(distribution), i) < 0x8000_0000 as real
  }

  ghost predicate NoOverflow(distribution: seq<Distribution>) {
    NoOverflowTo(distribution, |distribution|)
  }

  /** The running total after n entries, as the machine keeps it. */
  function RunningTotal(distribution: seq<Distribution>, n: nat): Int32
    requires n <= |distribution|
  {
    if n == 0 then 0 else Signed(RunningTotal(distribution, n - 1) + distribution[n - 1].weight)
  }

  ghost predicate Above(distribution: seq<Distribution>, bucket: Int32, i: int) {
    0 <= i < |distribution| && bucket < RunningTotal(distribution, i + 1)
  }

  /** The first entry whose running total is above the bucket, wrap-around included. */
  ghost predicate StopsAt(distribution: seq<Distribution>, bucket: Int32, i: int) {
    Above(distribution, bucket, i) && forall j :: 0 <= j < i ==> !Above(distribution, bucket, j)
  }

  method VariationForBucket(distribution: seq<Distribution>, bucket: Int32) returns (key: Option<JsString>)
    ensures key.Some? ==> exists i :: StopsAt(distribution, bucket, i) && key.value == distribution[i].variationKey
    ensures key.None? ==> forall i :: !Above(distribution, bucket, i)
    ensures NoOverflow(distribution) ==> key == KeyFor(Lift(distribution), bucket)
  {
    hide NoOverflow, NoOverflowTo, SliceFrom, Cumulative;
    if NoOverflow(distribution) {
      WalkAgrees(distribution, bucket, 0);
    }
    var cumulative: Int32 := 0;
    for i := 0 to |distribution|
      invariant cumulative == RunningTotal(distribution, i)
      invariant forall j :: 0 <= j < i ==> !Above(distribution, bucket, j)
    {
      cumulative := Signed(cumulative + distribution[i].weight);
      if bucket < cumulative {
        assert StopsAt(distribution, bucket, i);
        return Some(distribution[i].variationKey);
      }
    }
    return None;
  }

  lemma {:induction false} RunningTotalExact(distribution: seq<Distribution>, n: nat)
    requires n <= |distribution| && NoOverflowTo(distribution, n)
    ensures RunningTotal(distribution, n) as real == Cumulative(Lift(distribution), n)
  {
    if n > 0 {
      RunningTotalExact(distribution, n - 1);
      var sum: int := RunningTotal(distribution, n - 1) + distribution[n - 1].weight;
      assert sum as real == Cumulative(Lift(distribution), n);
    }
  }

  /** Without overflow the reference walk ends where this one does. */
  lemma {:induction false} WalkAgrees(distribution: seq<Distribution>, bucket: Int32, start: nat)
    requires NoOverflow(distribution) && start <= |distribution|
    requires forall j :: 0 <= j < start ==> !Above(distribution, bucket, j)
    ensures match SliceFrom(Lift(distribution), bucket, start)
            case None => forall j :: !Above(distribution, bucket, j)
            case Some(i) => StopsAt(distribution, bucket, i)
    decreases |distribution| - start
  {
    hide Cumulative;
    if start < |distribution| {
      RunningTotalExact(distribution, start + 1);
      if !Above(distribution, bucket, start) {
        WalkAgrees(distribution, bucket, start + 1);
      }
    }
  }

  /**
   * The walk serves the reference walk's slice exactly when the total up to that slice fits: past it, it never
   * serves that slice.
   */
  lemma AgreesExactlyWithoutOverflow(distribution: seq<Distribution>, bucket: Int32, i: nat)
    requires bucket >= 0 && forall s <- Lift(distribution) :: s.weight >= 0.0
    requires SliceFor(Lift(distribution), bucket) == Some(i)
    ensures StopsAt(distribution, bucket, i) <==> Cumulative(Lift(distribution), i + 1) < 0x8000_0000 as real
  {
    hide Cumulative, Signed, RunningTotal;
    var slices := Lift(distribution);
    SliceExact(slices, bucket, i);
    forall j | 0 <= j < i ensures !Above(distribution, bucket, j) {
      TotalsBelow(distribution, bucket, j + 1, i);
    }
    TotalsBelow(distribution, bucket, i, i);
    assert slices[i] in slices;
    NextTotal(distribution, i);
    PastTheTop(RunningTotal(distribution, i), distribution[i].weight, bucket);
  }

  lemma NextTotal(distribution: seq<Distribution>, i: nat)
    requires i < |distribution| && RunningTotal(distribution, i) as real == Cumulative(Lift(distribution), i)
    ensures RunningTotal(distribution, i + 1) == Signed(RunningTotal(distribution, i) + distribution[i].weight)
    ensures (RunningTotal(distribution, i) + distribution[i].weight) as real == Cumulative(Lift(distribution), i + 1)
  {
    hide Signed;
  }

  /** A total past the top of the range comes back below the bucket it has passed. */
  lemma PastTheTop(total: int, weight: int, bucket: int)
    requires 0 <= total <= bucket < 0x8000_0000 && 0 <= weight < 0x8000_0000 && bucket < total + weight
    ensures bucket < Signed(total + weight) <==> total + weight < 0x8000_0000
  {
  }

  lemma TotalsBelow(distribution: seq<Distribution>, bucket: Int32, n: nat, i: nat)
    requires n <= i <= |distribution| && forall s <- Lift(distribution) :: s.weight >= 0.0
    requires Cumulative(Lift(distribution), i) <= bucket as real
    ensures 0.0 <= Cumulative(Lift(distribution), n) <= bucket as real
    ensures RunningTotal(distribution, n) as real == Cumulative(Lift(distribution), n)
  {
    var slices := Lift(distribution);
    forall m | 0 <= m <= i ensures 0.0 <= Cumulative(slices, m) <= bucket as real {
      CumulativeMonotone(slices, 0, m);
      CumulativeMonotone(slices, m, i);
    }
    RunningTotalExact(distribution, n);
  }

  /** The method's total is a long: with at most 2^31 - 1 entries no addition leaves its range. */
  method IsValidDistribution(distribution: seq<Distribution>) returns (valid: bool)
    requires |distribution| < 0x8000_0000
    ensures valid <==> ValidDistribution(Lift(distribution))
  {
    ghost var slices := Lift(distribution);
    if |distribution| == 0 {
      return false;
    }
    var total: Int64 := 0;
    for i := 0 to |distribution|
      invariant 0 <= total <= i * 0x7fff_ffff
      invariant total as real == Cumulative(slices, i)
      invariant forall j :: 0 <= j < i ==> slices[j].weight >= 0.0
    {
      if distribution[i].weight < 0 {
        assert slices[i] in slices;
        return false;
      }
      total := total + distribution[i].weight;
    }
    return total == BUCKET_SPACE;
  }

  /** A valid distribution never overflows, so the Java walk serves what the reference walk serves. */
  lemma ValidMeansNoOverflow(distribution: seq<Distribution>)
    requires ValidDistribution(Lift(distribution))
    ensures NoOverflow(distribution)
  {
    var slices := Lift(distribution);
    forall i | 0 <= i <= |distribution|
      ensures -0x8000_0000 as real <= Cumulative(slices, i) < 0x8000_0000 as real
    {
      CumulativeMonotone(slices, 0, i);
      CumulativeMonotone(slices, i, |slices|);
    }
  }
}

/** The Go port: uint32 weights and a running total that wraps. */
module RolloutGo {
  import opened Text
  import opened Words
  import opened Bucketing
  import opened Rollout

  datatype Distribution = Distribution(variationKey: JsString, weight: Word)

  function Lift(distribution: seq<Distribution>): (r: seq<Slice>)
    ensures |r| == |distribution|
  {
    seq(|distribution|, i requires 0 <= i < |distribution| =>
      Slice(distribution[i].variationKey, distribution[i].weight as real))
  }

  /** No true total of up to n entries leaves the range of the machine's total. */
  ghost predicate NoOverflowTo(distribution: seq<Distribution>, n: nat)
    requires n <= |distribution|
  {
    forall i :: 0 <= i <= n ==> 0.0 <= Cumulative(Lift(distribution), i) < 0x1_0000_0000 as real
  }

  ghost predicate NoOverflow(distribution: seq<Distribution>) {
    NoOverflowTo(distribution, |distribution|)
  }

  /** The running total after n entries, as the machine keeps it. */
  function RunningTotal(distribution: seq<Distribution>, n: nat): Word
    requires n <= |distribution|
  {
    if n == 0 then 0 else Wrap(RunningTotal(distribution, n - 1) + distribution[n - 1].weight as int)
  }

  ghost predicate Above(distribution: seq<Distribution>, bucket: Word, i: int) {
    0 <= i < |distribution| && bucket < RunningTotal(distribution, i + 1)
  }

  /** The first entry whose running total is above the bucket, wrap-around included. */
  ghost predicate StopsAt(distribution: seq<Distribution>, bucket: Word, i: int) {
    Above(distribution, bucket, i) && forall j :: 0 <= j < i ==> !Above(distribution, bucket, j)
  }

  method VariationForBucket(distribution: seq<Distribution>, bucket: Word) returns (key: Option<JsString>)
    ensures key.Some? ==> exists i :: StopsAt(distribution, bucket, i) && key.value == distribution[i].variationKey
    ensures key.None? ==> forall i :: !Above(distribution, bucket, i)
    ensures NoOverflow(distribution) ==> key == KeyFor(Lift(distribution), bucket)
  {
    hide NoOverflow, NoOverflowTo, SliceFrom, Cumulative;
    if NoOverflow(distribution) {
      WalkAgrees(distribution, bucket, 0);
    }
    var cumulative: Word := 0;
    for i := 0 to |distribution|
      invariant cumulative == RunningTotal(distribution, i)
      invariant forall j :: 0 <= j < i ==> !Above(distribution, bucket, j)
    {
      cumulative := Wrap(cumulative + distribution[i].weight as int);
      if bucket < cumulative {
        assert StopsAt(distribution, bucket, i);
        return Some(distribution[i].variationKey);
      }
    }
    return None;
  }

  lemma {:induction false} RunningTotalExact(distribution: seq<Distribution>, n: nat)
    requires n <= |distribution| && NoOverflowTo(distribution, n)
    ensures RunningTotal(distribution, n) as real == Cumulative(Lift(distribution), n)
  {
    if n > 0 {
      RunningTotalExact(distribution, n - 1);
      var sum: int := RunningTotal(distribution, n - 1) + distribution[n - 1].weight as int;
      assert sum as real == Cumulative(Lift(distribution), n);
    }
  }

  /** Without overflow the reference walk ends where this one does. */
  lemma {:induction false} WalkAgrees(distribution: seq<Distribution>, bucket: Word, start: nat)
    requires NoOverflow(distribution) && start <= |distribution|
    requires forall j :: 0 <= j < start ==> !Above(distribution, bucket, j)
    ensures match SliceFrom(Lift(distribution), bucket, start)
            case None => forall j :: !Above(distribution, bucket, j)
            case Some(i) => StopsAt(distribution, bucket, i)
    decreases |distribution| - start
  {
    hide Cumulative;
    if start < |distribution| {
      RunningTotalExact(distribution, start + 1);
      if !Above(distribution, bucket, start) {
        WalkAgrees(distribution, bucket, start + 1);
      }
    }
  }

  /**
   * The walk serves the reference walk's slice exactly when the total up to that slice fits: past it, it never
   * serves that slice.
   */
  lemma AgreesExactlyWithoutOverflow(distribution: seq<Distribution>, bucket: Word, i: nat)
    requires bucket >= 0 && forall s <- Lift(distribution) :: s.weight >= 0.0
    requires SliceFor(Lift(distribution), bucket) == Some(i)
    ensures StopsAt(distribution, bucket, i) <==> Cumulative(Lift(distribution), i + 1) < 0x1_0000_0000 as real
  {
    hide Cumulative, Wrap, RunningTotal;
    var slices := Lift(distribution);
    SliceExact(slices, bucket, i);
    forall j | 0 <= j < i ensures !Above(distribution, bucket, j) {
      TotalsBelow(distribution, bucket, j + 1, i);
    }
    TotalsBelow(distribution, bucket, i, i);
    assert slices[i] in slices;
    NextTotal(distribution, i);
    PastTheTop(RunningTotal(distribution, i), distribution[i].weight, bucket);
  }

  lemma NextTotal(distribution: seq<Distribution>, i: nat)
    requires i < |distribution| && RunningTotal(distribution, i) as real == Cumulative(Lift(distribution), i)
    ensures RunningTotal(distribution, i + 1) == Wrap(RunningTotal(distribution, i) + distribution[i].weight as int)
    ensures (RunningTotal(distribution, i) + distribution[i].weight as int) as real ==
            Cumulative(Lift(distribution), i + 1)
  {
    hide Wrap;
  }

  /** A total past the top of the range comes back below the bucket it has passed. */
  lemma PastTheTop(total: int, weight: int, bucket: int)
    requires 0 <= total <= bucket < 0x1_0000_0000 && 0 <= weight < 0x1_0000_0000 && bucket < total + weight
    ensures bucket < Wrap(total + weight) <==> total + weight < 0x1_0000_0000
  {
  }

  lemma TotalsBelow(distribution: seq<Distribution>, bucket: Word, n: nat, i: nat)
    requires n <= i <= |distribution| && forall s <- Lift(distribution) :: s.weight >= 0.0
    requires Cumulative(Lift(distribution), i) <= bucket as real
    ensures 0.0 <= Cumulative(Lift(distribution), n) <= bucket as real
    ensures RunningTotal(distribution, n) as real == Cumulative(Lift(distribution), n)
  {
    var slices := Lift(distribution);
    forall m | 0 <= m <= i ensures 0.0 <= Cumulative(slices, m) <= bucket as real {
      CumulativeMonotone(slices, 0, m);
      CumulativeMonotone(slices, m, i);
    }
    RunningTotalExact(distribution, n);
  }

  /** A valid distribution never wraps, so the Go walk serves what the reference walk serves. */
  lemma ValidMeansNoOverflow(distribution: seq<Distribution>)
    requires ValidDistribution(Lift(distribution))
    ensures NoOverflow(distribution)
  {
    var slices := Lift(distribution);
    forall i | 0 <= i <= |distribution|
      ensures 0.0 <= Cumulative(slices, i) < 0x1_0000_0000 as real
    {
      CumulativeMonotone(slices, 0, i);
      CumulativeMonotone(slices, i, |slices|);
    }
  }
}
