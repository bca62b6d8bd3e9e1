/** Text as its Unicode code points, and trimming of white space. */
module UnicodeText {

  type Text = seq<nat>

  /** The code points with the White_Space property. */
  predicate IsSpace(c: nat) {
    9 <= c <= 13 || c == 32 || c == 0x85 || c == 0xA0 || c == 0x1680 || 0x2000 <= c <= 0x200A
    || c == 0x2028 || c == 0x2029 || c == 0x202F || c == 0x205F || c == 0x3000
  }

  function TrimStart(s: Text): Text {
    if s != [] && IsSpace(s[0]) then TrimStart(s[1..]) else s
  }

  function TrimEnd(s: Text): Text {
    if s != [] && IsSpace(s[|s| - 1]) then TrimEnd(s[..|s| - 1]) else s
  }

  function Trim(s: Text): Text {
    TrimEnd(TrimStart(s))
  }

  /** The visible part of a text lies from lo up to hi. */
  ghost predicate IsVisiblePart(s: Text, lo: nat, hi: nat) {
    && lo <= hi <= |s|
    && (forall i | 0 <= i < |s| && (i < lo || hi <= i) :: IsSpace(s[i]))
    && (lo < hi ==> !IsSpace(s[lo]) && !IsSpace(s[hi - 1]))
  }

  lemma {:induction false} TrimStartIs(s: Text) returns (lo: nat)
    ensures lo <= |s| && TrimStart(s) == s[lo..]
    ensures (forall i | 0 <= i < lo :: IsSpace(s[i])) && (lo < |s| ==> !IsSpace(s[lo]))
  {
    if s != [] && IsSpace(s[0]) {
      var rest := TrimStartIs(s[1..]);
      forall i | 0 <= i < rest + 1
        ensures IsSpace(s[i])
      {
        assert i > 0 ==> s[i] == s[1..][i - 1];
      }
      lo := rest + 1;
    } else {
      lo := 0;
    }
  }

  lemma {:induction false} TrimEndIs(s: Text) returns (hi: nat)
    ensures hi <= |s| && TrimEnd(s) == s[..hi]
    ensures (forall i | hi <= i < |s| :: IsSpace(s[i])) && (hi > 0 ==> !IsSpace(s[hi - 1]))
  {
    if s != [] && IsSpace(s[|s| - 1]) {
      hi := TrimEndIs(s[..|s| - 1]);
    } else {
      hi := |s|;
    }
  }

  /** Trimming leaves the visible part. */
  lemma TrimIs(s: Text) returns (lo: nat, hi: nat)
    ensures IsVisiblePart(s, lo, hi) && Trim(s) == s[lo..hi]
  {
    lo := TrimStartIs(s);
    var length := TrimEndIs(s[lo..]);
    hi := lo + length;
    forall i | 0 <= i < |s| && (i < lo || hi <= i)
      ensures IsSpace(s[i])
    {
      assert i >= hi ==> s[i] == s[lo..][i - lo];
    }
  }
}
