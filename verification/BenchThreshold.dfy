/** Benchmark thresholds: saturating 64-bit arithmetic, and the summary of a sorted sample. */
module BenchThreshold {
  import opened Basics

  const BENCH_THRESHOLD_SCALE_DIVISOR: nat := 100

  function AtLeastOne(n: nat): nat {
    Max(n, 1)
  }

  function ScaledThreshold(base: nat, scale: nat): nat {
    SaturatingMul(base, AtLeastOne(scale)) / BENCH_THRESHOLD_SCALE_DIVISOR
  }

  predicate Passed(median: nat, threshold: nat) {
    median <= threshold
  }

  function RequiredScale(base: nat, median: nat): nat {
    if base == 0 then U64_MAX
    else AtLeastOne(SaturatingAdd(SaturatingMul(median, BENCH_THRESHOLD_SCALE_DIVISOR), base - 1) / base)
  }

  function ScaleHeadroom(base: nat, median: nat, scale: nat): int {
    scale - RequiredScale(base, median)
  }

  function ThresholdHeadroom(median: nat, threshold: nat): int {
    threshold - median
  }

  predicate IsU64(n: nat) {
    n <= U64_MAX
  }

  /** The two verdicts on a case: it passes, and its scale is at least the required one. */
  predicate VerdictsAgree(base: nat, scale: nat, median: nat) {
    Passed(median, ScaledThreshold(base, scale)) <==> scale >= RequiredScale(base, median)
  }

  lemma {:induction false} MoreMultiples(r: nat, k: nat, d: nat)
    ensures (r + k) * d == r * d + k * d
    ensures k > 0 ==> k * d >= d
  {
    if k > 1 {
      MoreMultiples(r, k - 1, d);
    }
  }

  lemma MultiplesOrder(r: nat, m: nat, d: nat, q: nat)
    requires m < d
    ensures r <= q <==> r * d + m < (q + 1) * d
    ensures q <= r <==> q * d <= r * d + m
  {
    MoreMultiples(q, 1, d);
    if r < q {
      MoreMultiples(r, q - r, d);
    } else {
      MoreMultiples(q, r - q, d);
    }
  }

  lemma DivisionAtMost(x: nat, d: nat, q: nat)
    requires d > 0
    ensures x / d <= q <==> x < (q + 1) * d
    ensures q <= x / d <==> q * d <= x
  {
    assert x == x / d * d + x % d;
    MultiplesOrder(x / d, x % d, d, q);
  }

  /** Passing, without division. */
  lemma PassedMeans(base: nat, scale: nat, median: nat)
    ensures Passed(median, ScaledThreshold(base, scale)) <==> median * 100 <= SaturatingMul(base, AtLeastOne(scale))
  {
  }

  /** A scale of zero counts as one, and no case requires less than one. */
  lemma ScaleIsAtLeastOne(base: nat, median: nat)
    requires base <= U64_MAX
    ensures ScaledThreshold(base, 0) == ScaledThreshold(base, 1) == base / 100
    ensures RequiredScale(base, median) >= 1
  {
  }

  /** A case passes when a hundred times its median is at most the base times the scale, as far as 64 bits go. */
  lemma PassedIs(base: nat, scale: nat, median: nat, product: nat)
    requires product == base * if scale == 0 then 1 else scale
    ensures Passed(median, ScaledThreshold(base, scale)) <==>
            100 * median <= product && 100 * median <= 0xFFFF_FFFF_FFFF_FFFF
  {
    PassedMeans(base, scale, median);
  }

  /** Reaching the required scale, without division. */
  lemma RequiredMeans(base: nat, scale: nat, median: nat)
    requires base > 0 && scale > 0
    ensures scale >= RequiredScale(base, median) <==>
            SaturatingAdd(SaturatingMul(median, 100), base - 1) < (scale + 1) * base
  {
    DivisionAtMost(SaturatingAdd(SaturatingMul(median, 100), base - 1), base, scale);
  }

  /** Whether the scale is below the largest whole multiple of the base that 64 bits hold. */
  lemma LargestScale(base: nat, scale: nat)
    requires base > 0
    ensures scale < U64_MAX / base <==> scale * base + base <= U64_MAX
  {
    DivisionAtMost(U64_MAX, base, scale + 1);
    assert (scale + 1) * base == scale * base + base;
  }

  /** With a positive base, the verdicts agree when the case passes or the scale is below U64_MAX / base; only there. */
  lemma VerdictsAgreeUnlessSaturated(base: nat, scale: nat, median: nat)
    requires 0 < base <= U64_MAX && 0 < scale <= U64_MAX && IsU64(median)
    ensures VerdictsAgree(base, scale, median) <==>
            Passed(median, ScaledThreshold(base, scale)) || scale < U64_MAX / base
  {
    var scaled := base * scale;
    PassedByProduct(base, scale, median, scaled);
    RequiredByProduct(base, scale, median, scaled);
    LargestByProduct(base, scale, scaled);
    AgreementByProduct(base, scaled, median * 100);
  }

  lemma PassedByProduct(base: nat, scale: nat, median: nat, scaled: nat)
    requires scale > 0 && scaled == base * scale
    ensures Passed(median, ScaledThreshold(base, scale)) <==>
            median * 100 <= (if scaled <= U64_MAX then scaled else U64_MAX)
  {
    PassedMeans(base, scale, median);
  }

  lemma RequiredByProduct(base: nat, scale: nat, median: nat, scaled: nat)
    requires base > 0 && scale > 0 && scaled == base * scale
    ensures scale >= RequiredScale(base, median) <==>
            SaturatingAdd(if median * 100 <= U64_MAX then median * 100 else U64_MAX, base - 1) < scaled + base
  {
    RequiredMeans(base, scale, median);
    MoreMultiples(scale, 1, base);
  }

  lemma LargestByProduct(base: nat, scale: nat, scaled: nat)
    requires base > 0 && scaled == base * scale
    ensures scale < U64_MAX / base <==> scaled + base <= U64_MAX
  {
    LargestScale(base, scale);
  }

  /** The comparison behind both verdicts, with the two products given. */
  lemma AgreementByProduct(base: nat, scaled: nat, measured: nat)
    requires 0 < base
    ensures var passed := measured <= (if scaled <= U64_MAX then scaled else U64_MAX);
            var enough := SaturatingAdd(if measured <= U64_MAX then measured else U64_MAX, base - 1) < scaled + base;
            (passed <==> enough) <==> passed || scaled + base <= U64_MAX
  {
  }

  /** The verdicts agree whatever the median exactly for scales below U64_MAX / base: no product is near saturation. */
  lemma AgreementIsExact(base: nat, scale: nat)
    requires 0 < base <= U64_MAX && 0 < scale <= U64_MAX
    ensures (forall median | 0 <= median <= U64_MAX :: VerdictsAgree(base, scale, median)) <==> scale < U64_MAX / base
  {
    if scale < U64_MAX / base {
      forall median | 0 <= median <= U64_MAX
        ensures VerdictsAgree(base, scale, median)
      {
        VerdictsAgreeUnlessSaturated(base, scale, median);
      }
    } else {
      VerdictsAgreeUnlessSaturated(base, scale, U64_MAX);
      PassedMeans(base, scale, U64_MAX);
      assert !VerdictsAgree(base, scale, U64_MAX);
    }
  }

  /** The two headrooms are negative together. */
  lemma HeadroomsHaveOneSign(base: nat, scale: nat, median: nat)
    requires 0 < base <= U64_MAX && 0 < scale < U64_MAX / base && IsU64(median)
    ensures ScaleHeadroom(base, median, scale) >= 0 <==> ThresholdHeadroom(median, ScaledThreshold(base, scale)) >= 0
  {
    VerdictsAgreeUnlessSaturated(base, scale, median);
  }

  /** The required scale is the least that passes, if it is below U64_MAX / base. */
  lemma RequiredScaleIsLeast(base: nat, median: nat, scale: nat)
    requires 0 < base <= U64_MAX && IsU64(median) && RequiredScale(base, median) < U64_MAX / base
    ensures Passed(median, ScaledThreshold(base, RequiredScale(base, median)))
    ensures 0 < scale < RequiredScale(base, median) ==> !Passed(median, ScaledThreshold(base, scale))
  {
    var required := RequiredScale(base, median);
    DivisionAtMost(U64_MAX, base, 1);
    assert required <= U64_MAX by { QuotientIsSmaller(base); }
    VerdictsAgreeUnlessSaturated(base, required, median);
    if 0 < scale < required {
      VerdictsAgreeUnlessSaturated(base, scale, median);
    }
  }

  lemma QuotientIsSmaller(base: nat)
    requires base > 0
    ensures U64_MAX / base <= U64_MAX
  {
    DivisionAtMost(U64_MAX, base, U64_MAX);
    assert (U64_MAX + 1) * base >= U64_MAX + 1;
  }

  /** Without a base the threshold is zero and the required scale the maximum: the verdicts agree for a median of zero at
      the maximal scale, and for any other median at any other scale. */
  lemma WithoutBase(scale: nat, median: nat)
    requires scale <= U64_MAX
    ensures VerdictsAgree(0, scale, median) <==> (median == 0 <==> scale == U64_MAX)
  {
  }

  // ----- The summary

  ghost predicate Sorted(s: seq<nat>) {
    forall i, j | 0 <= i < j < |s| :: s[i] <= s[j]
  }

  function Insert(s: seq<nat>, x: nat): seq<nat> {
    if s == [] || s[|s| - 1] <= x then s + [x] else Insert(s[..|s| - 1], x) + [s[|s| - 1]]
  }

  /** What sorting in place leaves; only that it is sorted and a permutation matters. */
  function SortUnstable(s: seq<nat>): seq<nat> {
    if s == [] then [] else Insert(SortUnstable(s[..|s| - 1]), s[|s| - 1])
  }

  lemma {:induction false} InsertKeeps(s: seq<nat>, x: nat)
    ensures multiset(Insert(s, x)) == multiset(s) + multiset{x}
  {
    if s != [] && s[|s| - 1] > x {
      InsertKeeps(s[..|s| - 1], x);
      assert s == s[..|s| - 1] + [s[|s| - 1]];
    }
  }

  lemma {:induction false} InsertSorts(s: seq<nat>, x: nat)
    requires Sorted(s)
    ensures Sorted(Insert(s, x))
    ensures forall i | 0 <= i < |Insert(s, x)| :: Insert(s, x)[i] <= if s == [] then x else Max(x, s[|s| - 1])
  {
    if s != [] && s[|s| - 1] > x {
      InsertSorts(s[..|s| - 1], x);
    }
  }

  lemma {:induction false} SortUnstableSorts(s: seq<nat>)
    ensures Sorted(SortUnstable(s)) && multiset(SortUnstable(s)) == multiset(s) && |SortUnstable(s)| == |s|
  {
    if s != [] {
      var n := |s| - 1;
      SortUnstableSorts(s[..n]);
      InsertSorts(SortUnstable(s[..n]), s[n]);
      InsertKeeps(SortUnstable(s[..n]), s[n]);
      assert s == s[..n] + [s[n]];
    }
    assert |multiset(SortUnstable(s))| == |multiset(s)|;
  }

  function MedianIndex(n: nat): nat {
    n / 2
  }

  function P90Index(n: nat): nat
    requires n > 0
  {
    (n - 1) * 9 / 10
  }

  class SampleSummary {
    var samples: seq<nat>
    var median: nat
    var p90: nat

    /** Sorts the samples in place and picks the two statistics. */
    constructor (input: seq<nat>)
      requires input != []
      ensures samples == SortUnstable(input)
      ensures |samples| == |input| && median == samples[MedianIndex(|input|)] && p90 == samples[P90Index(|input|)]
      ensures median == samples[|input| / 2] && p90 == samples[(|input| - 1) * 9 / 10]
    {
      SortUnstableSorts(input);
      samples := SortUnstable(input);
      median := SortUnstable(input)[|input| / 2];
      p90 := SortUnstable(input)[(|input| - 1) * 9 / 10];
    }
  }

  /** The indices are half the number of samples and nine tenths of the last index, both rounded down. */
  lemma IndicesInOrder(n: nat)
    requires n > 0
    ensures 2 * MedianIndex(n) <= n < 2 * MedianIndex(n) + 2
    ensures 10 * P90Index(n) <= 9 * (n - 1) < 10 * P90Index(n) + 10
    ensures MedianIndex(n) < n && P90Index(n) < n
    ensures MedianIndex(n) <= P90Index(n) <==> n != 2
  {
  }

  lemma PairSorts(a: nat, b: nat)
    ensures SortUnstable([a, b]) == if a <= b then [a, b] else [b, a]
  {
    assert [a, b][..1] == [a] && [a][..0] == [];
    assert SortUnstable([a]) == Insert([], a) == [a];
    assert SortUnstable([a, b]) == Insert([a], b);
    if a > b {
      assert Insert([a][..0], b) == [b];
    }
  }

  lemma SortedPick(input: seq<nat>, i: nat, j: nat)
    requires i <= j < |input|
    ensures |SortUnstable(input)| == |input| && SortUnstable(input)[i] <= SortUnstable(input)[j]
  {
    SortUnstableSorts(input);
  }

  lemma PairPicks(input: seq<nat>)
    requires |input| == 2
    ensures |SortUnstable(input)| == 2
    ensures SortUnstable(input)[1] <= SortUnstable(input)[0] <==> input[0] == input[1]
  {
    assert input == [input[0], input[1]];
    PairSorts(input[0], input[1]);
  }

  /** The median is at most the 90th percentile for every number of samples but two, where it is the larger of both. */
  lemma MedianAtMostP90(input: seq<nat>)
    requires input != []
    ensures var s := SortUnstable(input);
            && MedianIndex(|input|) < |s| && P90Index(|input|) < |s|
            && (s[MedianIndex(|input|)] <= s[P90Index(|input|)] <==> |input| != 2 || input[0] == input[1])
  {
    IndicesInOrder(|input|);
    if |input| == 2 {
      PairPicks(input);
    } else {
      SortedPick(input, MedianIndex(|input|), P90Index(|input|));
    }
  }
}
