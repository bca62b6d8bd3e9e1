/** Rendering of a digest as checksum text, and its constant-time comparison. */
module Checksum {

  type Bytes = seq<bv8>

  /** The text "sha256:". */
  const PREFIX: Bytes := [115, 104, 97, 50, 53, 54, 58]

  /** One of "0123456789abcdef". */
  function HexDigit(nibble: bv8): bv8 {
    if nibble < 10 then 48 + nibble else 87 + nibble
  }

  function HexPair(b: bv8): Bytes {
    [HexDigit(b >> 4), HexDigit(b & 0x0f)]
  }

  function Hex(digest: Bytes): Bytes {
    if digest == [] then [] else Hex(digest[..|digest| - 1]) + HexPair(digest[|digest| - 1])
  }

  function ChecksumText(digest: Bytes): Bytes {
    PREFIX + Hex(digest)
  }

  method RenderChecksum(digest: Bytes) returns (checksum: Bytes)
    ensures checksum == ChecksumText(digest)
  {
    checksum := PREFIX;
    for i := 0 to |digest|
      invariant checksum == PREFIX + Hex(digest[..i])
    {
      checksum := checksum + [HexDigit(digest[i] >> 4)];
      checksum := checksum + [HexDigit(digest[i] & 0x0f)];
      assert digest[..i + 1][..i] == digest[..i];
      assert PREFIX + Hex(digest[..i]) + [HexDigit(digest[i] >> 4)] + [HexDigit(digest[i] & 0x0f)]
          == PREFIX + (Hex(digest[..i]) + HexPair(digest[i]));
    }
    assert digest[..|digest|] == digest;
  }

  lemma HexDigitIsInjective(m: bv8, n: bv8)
    requires m < 16 && n < 16 && HexDigit(m) == HexDigit(n)
    ensures m == n
  {
  }

  lemma NibblesMakeByte(b: bv8)
    ensures b >> 4 < 16 && b & 0x0f < 16 && b == ((b >> 4) << 4) | (b & 0x0f)
  {
  }

  lemma HexPairIsInjective(a: bv8, b: bv8)
    requires HexPair(a) == HexPair(b)
    ensures a == b
  {
    NibblesMakeByte(a);
    NibblesMakeByte(b);
    assert HexPair(a)[0] == HexPair(b)[0] && HexPair(a)[1] == HexPair(b)[1];
    HexDigitIsInjective(a >> 4, b >> 4);
    HexDigitIsInjective(a & 0x0f, b & 0x0f);
  }

  lemma {:induction false} HexLength(d: Bytes)
    ensures |Hex(d)| == 2 * |d|
  {
    if d != [] {
      HexLength(d[..|d| - 1]);
    }
  }

  lemma {:induction false} HexIsInjective(d: Bytes, e: Bytes)
    requires Hex(d) == Hex(e)
    ensures d == e
    decreases |d|
  {
    HexLength(d);
    HexLength(e);
    if d != [] {
      var n := |d| - 1;
      HexLength(d[..n]);
      HexLength(e[..n]);
      SplitAtPair(Hex(d[..n]), HexPair(d[n]), Hex(e[..n]), HexPair(e[n]));
      HexIsInjective(d[..n], e[..n]);
      HexPairIsInjective(d[n], e[n]);
      assert d == d[..n] + [d[n]] && e == e[..n] + [e[n]];
    }
  }

  lemma SplitAtPair(a: Bytes, x: Bytes, b: Bytes, y: Bytes)
    requires |a| == |b| && a + x == b + y
    ensures a == b && x == y
  {
    assert a == (a + x)[..|a|] && x == (a + x)[|a|..];
  }

  /** Different digests have different checksums. */
  lemma ChecksumTextIsInjective(d: Bytes, e: Bytes)
    requires ChecksumText(d) == ChecksumText(e)
    ensures d == e
  {
    SplitAtPair(PREFIX, Hex(d), PREFIX, Hex(e));
    HexIsInjective(d, e);
  }

  /** The value of a hexadecimal digit in lower case. */
  function DigitValue(c: bv8): nat {
    var n := c as nat;
    if '0' as nat <= n <= '9' as nat then n - '0' as nat
    else if 'a' as nat <= n <= 'f' as nat then n - 'a' as nat + 10
    else 16
  }

  /** The two digits read as the byte. */
  ghost predicate ReadAs(hi: bv8, lo: bv8, b: bv8) {
    DigitValue(hi) < 16 && DigitValue(lo) < 16 && b as nat == 16 * DigitValue(hi) + DigitValue(lo)
  }

  lemma PairReadsBack(b: bv8)
    ensures ReadAs(HexPair(b)[0], HexPair(b)[1], b)
  {
    NibblesMakeByte(b);
    DigitReadsBack(b >> 4);
    DigitReadsBack(b & 0x0f);
    assert (b >> 4) as nat == b as nat / 16 && (b & 0x0f) as nat == b as nat % 16;
  }

  lemma DigitReadsBack(nibble: bv8)
    requires nibble < 16
    ensures DigitValue(HexDigit(nibble)) == nibble as nat
  {
  }

  lemma {:induction false} HexReadsBack(d: Bytes, i: nat)
    requires i < |d|
    ensures |Hex(d)| == 2 * |d|
    ensures ReadAs(Hex(d)[2 * i], Hex(d)[2 * i + 1], d[i])
  {
    var n := |d| - 1;
    HexLength(d);
    HexLength(d[..n]);
    if i < n {
      HexReadsBack(d[..n], i);
    } else {
      PairReadsBack(d[n]);
    }
  }

  /** A checksum text is "sha256:" and two hexadecimal digits for each byte, the higher one first. */
  lemma ChecksumTextReadsBack(d: Bytes)
    ensures var text := ChecksumText(d);
            && |text| == 7 + 2 * |d|
            && (forall k | 0 <= k < 7 :: text[k] as nat == "sha256:"[k] as nat)
            && (forall i | 0 <= i < |d| :: ReadAs(text[7 + 2 * i], text[8 + 2 * i], d[i]))
  {
    HexLength(d);
    forall i | 0 <= i < |d|
      ensures ReadAs(ChecksumText(d)[7 + 2 * i], ChecksumText(d)[8 + 2 * i], d[i])
    {
      HexReadsBack(d, i);
    }
  }

  // ----- Comparison

  /** Every differing bit of the first n positions. */
  function Difference(left: Bytes, right: Bytes, n: nat): bv8
    requires n <= |left| == |right|
  {
    if n == 0 then 0 else Difference(left, right, n - 1) | (left[n - 1] ^ right[n - 1])
  }

  predicate ConstantTimeTextEq(left: Bytes, right: Bytes) {
    |left| == |right| && Difference(left, right, |left|) == 0
  }

  lemma NoDifferenceAdded(difference: bv8, l: bv8, r: bv8)
    ensures difference | (l ^ r) == 0 <==> difference == 0 && l == r
  {
  }

  lemma {:induction false} NoDifference(left: Bytes, right: Bytes, n: nat)
    requires n <= |left| == |right|
    ensures Difference(left, right, n) == 0 <==> left[..n] == right[..n]
  {
    if n > 0 {
      NoDifference(left, right, n - 1);
      NoDifferenceAdded(Difference(left, right, n - 1), left[n - 1], right[n - 1]);
      assert left[..n] == left[..n - 1] + [left[n - 1]] && right[..n] == right[..n - 1] + [right[n - 1]];
    }
  }

  /** The fold that never stops early holds of equal texts and of no others. */
  lemma ConstantTimeEqIsEquality(left: Bytes, right: Bytes)
    ensures ConstantTimeTextEq(left, right) <==> left == right
  {
    if |left| == |right| {
      NoDifference(left, right, |left|);
      assert left[..|left|] == left && right[..|right|] == right;
    }
  }

  ghost predicate IsAscii(s: Bytes) {
    forall i | 0 <= i < |s| :: s[i] < 128
  }

  lemma HexPairIsAscii(b: bv8)
    ensures IsAscii(HexPair(b))
  {
    NibblesMakeByte(b);
  }

  lemma {:induction false} HexIsAscii(digest: Bytes)
    ensures IsAscii(Hex(digest))
  {
    if digest != [] {
      HexIsAscii(digest[..|digest| - 1]);
      HexPairIsAscii(digest[|digest| - 1]);
    }
  }

  lemma ChecksumTextIsAscii(digest: Bytes)
    ensures IsAscii(ChecksumText(digest))
  {
    HexIsAscii(digest);
  }
}
