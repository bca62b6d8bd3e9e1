/** Stock datatypes, the 64-bit unsigned arithmetic of the Rust sources, and sums over sequences. */
module Basics {
  datatype Option<+T> = None | Some(value: T)

  datatype Result<+T, +E> = Ok(value: T) | Err(error: E)

  const U64_LIMIT: nat := 0x1_0000_0000_0000_0000
  const U64_MAX: nat := 0xFFFF_FFFF_FFFF_FFFF
  const I64_MAX: int := 0x7FFF_FFFF_FFFF_FFFF
  const I64_MIN: int := -0x8000_0000_0000_0000

  function CheckedAdd(a: nat, b: nat): Option<nat> {
    if a + b <= U64_MAX then Some(a + b) else None
  }

  function SaturatingAdd(a: nat, b: nat): nat {
    if a + b <= U64_MAX then a + b else U64_MAX
  }

  function SaturatingMul(a: nat, b: nat): nat {
    if a * b <= U64_MAX then a * b else U64_MAX
  }

  function SaturatingSub(a: nat, b: nat): nat {
    if b <= a then a - b else 0
  }

  /** `fetch_add` and `fetch_sub` on an `AtomicU64` wrap around. */
  function WrappingAdd(a: nat, b: nat): nat {
    (a + b) % U64_LIMIT
  }

  function WrappingSub(a: nat, b: nat): nat {
    (a - b) % U64_LIMIT
  }

  function Max(a: nat, b: nat): nat {
    if a < b then b else a
  }

  /** Equality of whole values: sequences are not compared element by element. */
  ghost predicate Same<T>(a: T, b: T) {
    a == b
  }

  /** The total weight of a sequence under a weighing function. */
  function SumBy<T>(s: seq<T>, weight: T -> int): int {
    if s == [] then 0 else SumBy(s[..|s| - 1], weight) + weight(s[|s| - 1])
  }

  lemma {:induction false} SumByUpdate<T>(s: seq<T>, i: nat, x: T, weight: T -> int)
    requires i < |s|
    ensures SumBy(s[i := x], weight) == SumBy(s, weight) - weight(s[i]) + weight(x)
  {
    var n := |s| - 1;
    if i == n {
      assert s[i := x][..n] == s[..n];
    } else {
      assert s[i := x][..n] == s[..n][i := x];
      SumByUpdate(s[..n], i, x, weight);
    }
  }

  lemma SumByAppend<T>(s: seq<T>, x: T, weight: T -> int)
    ensures SumBy(s + [x], weight) == SumBy(s, weight) + weight(x)
  {
    assert (s + [x])[..|s|] == s;
  }

  /** With no negative weight, one element never outweighs the whole. */
  lemma {:induction false} SumByMember<T>(s: seq<T>, i: nat, weight: T -> int)
    requires i < |s| && forall k | 0 <= k < |s| :: weight(s[k]) >= 0
    ensures 0 <= weight(s[i]) <= SumBy(s, weight)
  {
    SumByNonNegative(s[..|s| - 1], weight);
    if i < |s| - 1 {
      SumByMember(s[..|s| - 1], i, weight);
    }
  }

  lemma {:induction false} SumByNonNegative<T>(s: seq<T>, weight: T -> int)
    requires forall k | 0 <= k < |s| :: weight(s[k]) >= 0
    ensures SumBy(s, weight) >= 0
  {
    if s != [] {
      SumByNonNegative(s[..|s| - 1], weight);
    }
  }

  lemma {:induction false} SumByZero<T>(s: seq<T>, weight: T -> int)
    requires forall k | 0 <= k < |s| :: weight(s[k]) == 0
    ensures SumBy(s, weight) == 0
  {
    if s != [] {
      SumByZero(s[..|s| - 1], weight);
    }
  }

  // ----- Sequence algebra, each fact by itself

  lemma UpdateFront<T>(a: seq<T>, b: seq<T>, i: nat, x: T)
    requires i < |a|
    ensures (a + b)[i := x] == a[i := x] + b
  {
  }

  lemma UpdateBack<T>(a: seq<T>, b: seq<T>, i: nat, x: T)
    requires |a| <= i < |a| + |b|
    ensures (a + b)[i := x] == a + b[i - |a| := x]
  {
  }

  lemma Associate<T>(a: seq<T>, b: seq<T>, c: seq<T>)
    ensures a + b + c == a + (b + c)
  {
  }

  lemma SliceGrows<T>(s: seq<T>, n: nat, k: nat)
    requires n <= k < |s|
    ensures Same(s[n..k + 1], s[n..k] + [s[k]])
  {
    assert s[n..k + 1] == s[n..k] + [s[k]];
  }

  lemma SliceOfJoined<T>(a: seq<T>, b: seq<T>, n: nat)
    requires n <= |a|
    ensures Same((a + b)[n..], a[n..] + b)
  {
    assert (a + b)[n..] == a[n..] + b;
  }

  lemma ConcatEmpty<T>(a: seq<T>)
    ensures a + [] == a
  {
  }
}
