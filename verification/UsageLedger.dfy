/**
 * The usage ledger: rows are normalised, wrapped in a checksummed envelope and appended as lines;
 * reading parses every line back. The JSON codec and the digest are parameters.
 */
module UsageLedger {
  import opened Basics
  import opened Checksum
  import opened UnicodeText

  const USAGE_LEDGER_RECORD_VERSION: nat := 1
  const USAGE_LEDGER_READ_MAX_BYTES: nat := 64 * 1024 * 1024

  const NEWLINE: nat := 10
  const RETURN: nat := 13
  const DASH: nat := 45

  // ----- Tokens

  predicate IsAllowed(c: nat) {
    48 <= c <= 57 || 65 <= c <= 90 || 97 <= c <= 122 || c == DASH || c == 95 || c == 46 || c == 58 || c == 47
  }

  function TokenChar(c: nat): nat {
    if !IsAllowed(c) then DASH else if 65 <= c <= 90 then c + 32 else c
  }

  function TokenChars(s: Text): (t: Text)
    ensures |t| == |s| && forall i | 0 <= i < |s| :: t[i] == TokenChar(s[i])
  {
    seq(|s|, i requires 0 <= i < |s| => TokenChar(s[i]))
  }

  function StripStart(s: Text): Text {
    if s != [] && s[0] == DASH then StripStart(s[1..]) else s
  }

  function StripEnd(s: Text): Text {
    if s != [] && s[|s| - 1] == DASH then StripEnd(s[..|s| - 1]) else s
  }

  function NormalizeUsageToken(value: Text, fallback: Text, maxChars: nat): Text {
    var trimmed := Trim(value);
    var kept := if |trimmed| <= maxChars then trimmed else trimmed[..maxChars];
    var stripped := StripEnd(StripStart(TokenChars(kept)));
    if stripped == [] then fallback else stripped
  }

  /** What a normalised token looks like. */
  ghost predicate IsToken(s: Text, maxChars: nat) {
    && |s| <= maxChars
    && (forall i | 0 <= i < |s| :: TokenChar(s[i]) == s[i])
    && (s != [] ==> s[0] != DASH && s[|s| - 1] != DASH)
  }

  lemma {:induction false} StripStartKeeps(s: Text)
    ensures |StripStart(s)| <= |s| && StripStart(s) == s[|s| - |StripStart(s)|..]
    ensures StripStart(s) != [] ==> StripStart(s)[0] != DASH
  {
    if s != [] && s[0] == DASH {
      StripStartKeeps(s[1..]);
    }
  }

  lemma {:induction false} StripEndKeeps(s: Text)
    ensures |StripEnd(s)| <= |s| && StripEnd(s) == s[..|StripEnd(s)|]
    ensures StripEnd(s) != [] ==> StripEnd(s)[|StripEnd(s)| - 1] != DASH
  {
    if s != [] && s[|s| - 1] == DASH {
      StripEndKeeps(s[..|s| - 1]);
    }
  }

  lemma StrippedIsToken(chars: Text, maxChars: nat)
    requires |chars| <= maxChars && forall i | 0 <= i < |chars| :: TokenChar(chars[i]) == chars[i]
    ensures IsToken(StripEnd(StripStart(chars)), maxChars)
  {
    var front := StripStart(chars);
    var all := StripEnd(front);
    StripStartKeeps(chars);
    StripEndKeeps(front);
    forall i | 0 <= i < |all|
      ensures TokenChar(all[i]) == all[i]
    {
      assert all[i] == front[i] == chars[|chars| - |front| + i];
    }
    assert all != [] ==> all[0] == front[0];
  }

  lemma TokensAreTokens(value: Text, fallback: Text, maxChars: nat)
    requires IsToken(fallback, maxChars)
    ensures IsToken(NormalizeUsageToken(value, fallback, maxChars), maxChars)
  {
    var trimmed := Trim(value);
    StrippedIsToken(TokenChars(if |trimmed| <= maxChars then trimmed else trimmed[..maxChars]), maxChars);
  }

  lemma NormalizeLeavesTokens(s: Text, fallback: Text, maxChars: nat)
    requires IsToken(s, maxChars)
    ensures NormalizeUsageToken(s, fallback, maxChars) == if s == [] then fallback else s
  {
    if s != [] {
      assert TokenChar(s[0]) == s[0] && TokenChar(s[|s| - 1]) == s[|s| - 1];
    }
    assert TokenChars(s) == s;
  }

  // ----- What a token is made of

  /** How one character of a token is written: ASCII letters in lower case, digits and five signs as they are,
      anything else as a dash. */
  function Written(c: nat): nat {
    if 'A' as nat <= c <= 'Z' as nat then c - 'A' as nat + 'a' as nat
    else if 'a' as nat <= c <= 'z' as nat || '0' as nat <= c <= '9' as nat then c
    else if exists k | 0 <= k < 5 :: c == "-_.:/"[k] as nat then c
    else '-' as nat
  }

  ghost predicate Spells(t: Text, s: string) {
    |t| == |s| && forall k | 0 <= k < |s| :: t[k] == s[k] as nat
  }

  /** Written out, the characters from lo to end are dashes before i and from j on, and no dash is left at an end. */
  ghost predicate IsInner(value: Text, lo: nat, end: nat, i: nat, j: nat)
    requires end <= |value|
  {
    && lo <= i <= j <= end
    && (forall k | lo <= k < end && (k < i || j <= k) :: Written(value[k]) == '-' as nat)
    && (i < j ==> Written(value[i]) != '-' as nat && Written(value[j - 1]) != '-' as nat)
  }

  /** Of the visible part of the value, from lo to hi, at most maxChars characters are used; the token is what they
      leave between dashes, from i to j, or the fallback where nothing is left. */
  ghost predicate TokenBetween(
    value: Text, fallback: string, maxChars: nat, token: Text, lo: nat, hi: nat, i: nat, j: nat)
  {
    && IsVisiblePart(value, lo, hi)
    && IsInner(value, lo, if hi - lo <= maxChars then hi else lo + maxChars, i, j)
    && if i == j then Spells(token, fallback) else
         |token| == j - i && forall k | 0 <= k < |token| :: token[k] == Written(value[i + k])
  }

  ghost predicate IsTokenOf(value: Text, fallback: string, maxChars: nat, token: Text) {
    exists lo: nat, hi: nat, i: nat, j: nat :: TokenBetween(value, fallback, maxChars, token, lo, hi, i, j)
  }

  lemma WrittenIsTokenChar(c: nat)
    ensures Written(c) == TokenChar(c)
  {
    if exists k | 0 <= k < 5 :: c == "-_.:/"[k] as nat {
      assert c == 45 || c == 95 || c == 46 || c == 58 || c == 47;
    } else {
      assert "-_.:/"[0] == '-' && "-_.:/"[1] == '_' && "-_.:/"[2] == '.' && "-_.:/"[3] == ':' && "-_.:/"[4] == '/';
    }
  }

  lemma {:induction false} StripStartIs(s: Text)
    ensures var n := |s| - |StripStart(s)|;
            0 <= n && StripStart(s) == s[n..] && forall k | 0 <= k < n :: s[k] == DASH
  {
    StripStartKeeps(s);
    if s != [] && s[0] == DASH {
      StripStartIs(s[1..]);
      forall k | 0 <= k < |s| - |StripStart(s)|
        ensures s[k] == DASH
      {
        assert k > 0 ==> s[k] == s[1..][k - 1];
      }
    }
  }

  lemma {:induction false} StripEndIs(s: Text)
    ensures var n := |StripEnd(s)|;
            n <= |s| && StripEnd(s) == s[..n] && forall k | n <= k < |s| :: s[k] == DASH
  {
    StripEndKeeps(s);
    if s != [] && s[|s| - 1] == DASH {
      StripEndIs(s[..|s| - 1]);
    }
  }

  /** Normalising a value gives the token it is described by, and that is the only one. */
  lemma TokenIs(value: Text, fallback: Text, spelled: string, maxChars: nat, token: Text)
    requires Spells(fallback, spelled)
    ensures token == NormalizeUsageToken(value, fallback, maxChars) <==> IsTokenOf(value, spelled, maxChars, token)
  {
    var made := NormalizeUsageToken(value, fallback, maxChars);
    NormalizedIsTokenOf(value, fallback, spelled, maxChars);
    if IsTokenOf(value, spelled, maxChars, token) {
      TokenIsUnique(value, spelled, maxChars, made, token);
    }
  }

  /** The token starts at n; it is what is left without the dashes at both ends. */
  ghost predicate IsStripped(chars: Text, token: Text, n: nat) {
    && n + |token| <= |chars| && token == chars[n..n + |token|]
    && (forall k | 0 <= k < |chars| && (k < n || n + |token| <= k) :: chars[k] == DASH)
    && (token != [] ==> token[0] != DASH && token[|token| - 1] != DASH)
  }

  lemma StrippedIs(chars: Text) returns (n: nat)
    ensures IsStripped(chars, StripEnd(StripStart(chars)), n)
  {
    var front := StripStart(chars);
    var token := StripEnd(front);
    StripStartIs(chars);
    StripEndIs(front);
    StripStartKeeps(chars);
    StripEndKeeps(front);
    n := |chars| - |front|;
    InnerOfInner(chars, front, token, n);
  }

  lemma InnerOfInner(chars: Text, front: Text, token: Text, n: nat)
    requires n <= |chars| && front == chars[n..] && |token| <= |front| && token == front[..|token|]
    requires (forall k | 0 <= k < n :: chars[k] == DASH) && (forall k | |token| <= k < |front| :: front[k] == DASH)
    requires front != [] ==> front[0] != DASH
    requires token != [] ==> token[|token| - 1] != DASH
    ensures IsStripped(chars, token, n)
  {
    forall k | n + |token| <= k < |chars|
      ensures chars[k] == DASH
    {
      assert front[k - n] == chars[k];
    }
    assert token == chars[n..n + |token|];
    assert token != [] ==> token[0] == front[0];
  }

  lemma NormalizedIsTokenOf(value: Text, fallback: Text, spelled: string, maxChars: nat)
    requires Spells(fallback, spelled)
    ensures IsTokenOf(value, spelled, maxChars, NormalizeUsageToken(value, fallback, maxChars))
  {
    var lo, hi := TrimIs(value);
    var end := if hi - lo <= maxChars then hi else lo + maxChars;
    var kept := KeptIs(value, maxChars, lo, hi, end);
    var n := StrippedIs(TokenChars(kept));
    var token := StripEnd(StripStart(TokenChars(kept)));
    InnerIs(value, lo, end, kept, token, n);
    assert TokenBetween(
        value, spelled, maxChars, if token == [] then fallback else token, lo, hi, lo + n, lo + n + |token|);
  }

  lemma KeptIs(value: Text, maxChars: nat, lo: nat, hi: nat, end: nat) returns (kept: Text)
    requires lo <= hi <= |value| && Trim(value) == value[lo..hi]
    requires end == if hi - lo <= maxChars then hi else lo + maxChars
    ensures Same(kept, value[lo..end])
    ensures forall fallback :: NormalizeUsageToken(value, fallback, maxChars) ==
                               var token := StripEnd(StripStart(TokenChars(kept)));
                               if token == [] then fallback else token
  {
    kept := if |Trim(value)| <= maxChars then Trim(value) else Trim(value)[..maxChars];
    assert kept == value[lo..end];
  }

  lemma InnerIs(value: Text, lo: nat, end: nat, kept: Text, token: Text, n: nat)
    requires lo <= end <= |value| && Same(kept, value[lo..end]) && IsStripped(TokenChars(kept), token, n)
    ensures IsInner(value, lo, end, lo + n, lo + n + |token|)
    ensures forall k | 0 <= k < |token| :: token[k] == Written(value[lo + n + k])
  {
    var chars := TokenChars(kept);
    forall k | lo <= k < end
      ensures Written(value[k]) == chars[k - lo]
    {
      WrittenIsTokenChar(value[k]);
    }
    assert token != [] ==> token[0] == chars[n] && token[|token| - 1] == chars[n + |token| - 1];
    forall k | 0 <= k < |token|
      ensures token[k] == Written(value[lo + n + k])
    {
      assert token[k] == chars[lo + n + k - lo];
    }
  }

  lemma TokenIsUnique(value: Text, fallback: string, maxChars: nat, s: Text, t: Text)
    requires IsTokenOf(value, fallback, maxChars, s) && IsTokenOf(value, fallback, maxChars, t)
    ensures s == t
  {
    var lo: nat, hi: nat, i: nat, j: nat :| TokenBetween(value, fallback, maxChars, s, lo, hi, i, j);
    OnlyToken(value, fallback, maxChars, s, t, lo, hi, i, j);
  }

  lemma OnlyToken(
    value: Text, fallback: string, maxChars: nat, s: Text, t: Text, lo: nat, hi: nat, i: nat, j: nat)
    requires TokenBetween(value, fallback, maxChars, s, lo, hi, i, j) && IsTokenOf(value, fallback, maxChars, t)
    ensures Same(s, t)
  {
    var low: nat, high: nat, first: nat, last: nat :|
      TokenBetween(value, fallback, maxChars, t, low, high, first, last);
    SameVisiblePart(value, lo, hi, low, high);
    if lo < hi {
      SameInner(value, lo, if hi - lo <= maxChars then hi else lo + maxChars, i, j, first, last);
    }
    SameBetween(value, fallback, maxChars, s, t, lo, hi, i, j, low, high, first, last);
  }

  lemma SameBetween(
    value: Text, fallback: string, maxChars: nat, s: Text, t: Text,
    lo: nat, hi: nat, i: nat, j: nat, low: nat, high: nat, first: nat, last: nat)
    requires TokenBetween(value, fallback, maxChars, s, lo, hi, i, j)
    requires TokenBetween(value, fallback, maxChars, t, low, high, first, last)
    requires if i < j then first == i && last == j else first == last
    ensures Same(s, t)
  {
    assert s == t;
  }

  lemma SameInner(value: Text, lo: nat, end: nat, i: nat, j: nat, first: nat, last: nat)
    requires end <= |value| && IsInner(value, lo, end, i, j) && IsInner(value, lo, end, first, last)
    ensures if i < j then first == i && last == j else first == last
  {
  }

  lemma SameVisiblePart(s: Text, lo: nat, hi: nat, low: nat, high: nat)
    requires IsVisiblePart(s, lo, hi) && IsVisiblePart(s, low, high)
    ensures if lo < hi then low == lo && high == hi else low == high
  {
  }

  // ----- Rows

  datatype Metadata = Metadata(profileName: Option<Text>, accountHint: Option<Text>, emailDomain: Option<Text>)

  datatype Row = Row(
    recordedAtEpoch: int,
    source: Text,
    operation: Text,
    outcome: Text,
    model: Option<Text>,
    requestId: Option<Text>,
    metadata: Metadata,
    inputTokens: nat,
    outputTokens: nat,
    cachedInputTokens: nat,
    reasoningTokens: nat,
    totalTokens: nat,
    costMicros: nat)

  /** The text "unknown". */
  const UNKNOWN: Text := [117, 110, 107, 110, 111, 119, 110]

  function NormalizeOptional(value: Option<Text>): Option<Text> {
    match value
    case None => None
    case Some(v) =>
      var token := NormalizeUsageToken(v, [], 128);
      if token == [] then None else Some(token)
  }

  function NormalizedTotal(r: Row): nat {
    if r.totalTokens != 0 then r.totalTokens
    else SaturatingAdd(SaturatingAdd(r.inputTokens, r.outputTokens), r.reasoningTokens)
  }

  function Normalized(r: Row): Row {
    r.(source := NormalizeUsageToken(r.source, UNKNOWN, 64),
       operation := NormalizeUsageToken(r.operation, UNKNOWN, 64),
       outcome := NormalizeUsageToken(r.outcome, UNKNOWN, 32),
       model := NormalizeOptional(r.model),
       requestId := NormalizeOptional(r.requestId),
       totalTokens := NormalizedTotal(r))
  }

  lemma TokenIsStable(value: Text, fallback: Text, maxChars: nat)
    requires IsToken(fallback, maxChars)
    ensures var token := NormalizeUsageToken(value, fallback, maxChars);
            NormalizeUsageToken(token, fallback, maxChars) == token
  {
    TokensAreTokens(value, fallback, maxChars);
    NormalizeLeavesTokens(NormalizeUsageToken(value, fallback, maxChars), fallback, maxChars);
  }

  lemma OptionalIsStable(value: Option<Text>)
    ensures NormalizeOptional(NormalizeOptional(value)) == NormalizeOptional(value)
  {
    if value.Some? {
      TokenIsStable(value.value, [], 128);
    }
  }

  /** Normalising a row again changes nothing. */
  lemma NormalizedIsIdempotent(r: Row)
    ensures Normalized(Normalized(r)) == Normalized(r)
  {
    assert IsToken(UNKNOWN, 64) && IsToken(UNKNOWN, 32);
    TokenIsStable(r.source, UNKNOWN, 64);
    TokenIsStable(r.operation, UNKNOWN, 64);
    TokenIsStable(r.outcome, UNKNOWN, 32);
    OptionalIsStable(r.model);
    OptionalIsStable(r.requestId);
  }

  ghost predicate IsOptionalTokenOf(value: Option<Text>, token: Option<Text>) {
    if value.None? then token.None? else
      IsTokenOf(value.value, "", 128, if token.Some? then token.value else []) && token != Some([])
  }

  lemma OptionalTokenIs(value: Option<Text>)
    ensures IsOptionalTokenOf(value, NormalizeOptional(value))
  {
    if value.Some? {
      TokenIs(value.value, [], "", 128, NormalizeUsageToken(value.value, [], 128));
    }
  }

  /** Field by field: the five texts become the tokens described, in their own places; the total is the one given or
      the sum of input, output and reasoning, as far as the counter goes; all else stays. */
  lemma NormalizedIs(r: Row)
    ensures var n := Normalized(r);
            && IsTokenOf(r.source, "unknown", 64, n.source)
            && IsTokenOf(r.operation, "unknown", 64, n.operation)
            && IsTokenOf(r.outcome, "unknown", 32, n.outcome)
            && IsOptionalTokenOf(r.model, n.model)
            && IsOptionalTokenOf(r.requestId, n.requestId)
    ensures var n := Normalized(r);
            && n.recordedAtEpoch == r.recordedAtEpoch
            && n.metadata == r.metadata
            && n.inputTokens == r.inputTokens
            && n.outputTokens == r.outputTokens
            && n.cachedInputTokens == r.cachedInputTokens
            && n.reasoningTokens == r.reasoningTokens
            && n.costMicros == r.costMicros
    ensures var sum := r.inputTokens + r.outputTokens + r.reasoningTokens;
            Normalized(r).totalTokens ==
            if r.totalTokens > 0 then r.totalTokens
            else if sum < 0x1_0000_0000_0000_0000 then sum
            else 0xFFFF_FFFF_FFFF_FFFF
  {
    var n := Normalized(r);
    TokenIs(r.source, UNKNOWN, "unknown", 64, n.source);
    TokenIs(r.operation, UNKNOWN, "unknown", 64, n.operation);
    TokenIs(r.outcome, UNKNOWN, "unknown", 32, n.outcome);
    OptionalTokenIs(r.model);
    OptionalTokenIs(r.requestId);
  }

  /** Every text is a token already and there is a total. */
  ghost predicate IsClean(r: Row) {
    && IsToken(r.source, 64) && IsToken(r.operation, 64) && IsToken(r.outcome, 32)
    && r.source != [] && r.operation != [] && r.outcome != []
    && (r.model.Some? ==> IsToken(r.model.value, 128) && r.model.value != [])
    && (r.requestId.Some? ==> IsToken(r.requestId.value, 128) && r.requestId.value != [])
    && r.totalTokens > 0
  }

  /** A clean row is left alone. */
  lemma CleanRowIsKept(r: Row)
    requires IsClean(r)
    ensures Normalized(r) == r
  {
    NormalizeLeavesTokens(r.source, UNKNOWN, 64);
    NormalizeLeavesTokens(r.operation, UNKNOWN, 64);
    NormalizeLeavesTokens(r.outcome, UNKNOWN, 32);
    if r.model.Some? {
      NormalizeLeavesTokens(r.model.value, [], 128);
    }
    if r.requestId.Some? {
      NormalizeLeavesTokens(r.requestId.value, [], 128);
    }
  }

  // ----- Lines

  /** The lines of a file: split at newlines, one carriage return before each dropped, no line after the last one. */
  function Lines(content: Text): seq<Text>
    decreases |content|
  {
    if content == [] then [] else
      var n := LineLength(content);
      if n == |content| then [content] else [WithoutReturn(content[..n])] + Lines(content[n + 1..])
  }

  function LineLength(content: Text): (n: nat)
    ensures n <= |content| && NEWLINE !in content[..n] && (n < |content| ==> content[n] == NEWLINE)
  {
    if content == [] || content[0] == NEWLINE then 0 else
      var n := LineLength(content[1..]);
      assert content[..n + 1] == [content[0]] + content[1..][..n];
      n + 1
  }

  function WithoutReturn(line: Text): Text {
    if line != [] && line[|line| - 1] == RETURN then line[..|line| - 1] else line
  }

  predicate EndsInNewline(content: Text) {
    content == [] || content[|content| - 1] == NEWLINE
  }

  lemma {:induction false} LineLengthIs(content: Text, n: nat)
    requires n <= |content| && NEWLINE !in content[..n] && (n < |content| ==> content[n] == NEWLINE)
    ensures LineLength(content) == n
    decreases |content|
  {
    assert n > 0 ==> content[..n][0] == content[0];
    if n > 0 {
      assert content[..n] == [content[0]] + content[1..][..n - 1];
      LineLengthIs(content[1..], n - 1);
    }
  }

  /** Whole lines stay the same when more text follows. */
  lemma {:induction false} LinesConcat(a: Text, b: Text)
    requires EndsInNewline(a)
    ensures Lines(a + b) == Lines(a) + Lines(b)
    decreases |a|
  {
    if a == [] {
      assert a + b == b;
    } else {
      var n := LineLength(a);
      assert NEWLINE in a && a[..|a|] == a;
      assert (a + b)[..n] == a[..n] && (a + b)[n] == NEWLINE;
      LineLengthIs(a + b, n);
      assert (a + b)[n + 1..] == a[n + 1..] + b;
      LinesConcat(a[n + 1..], b);
    }
  }

  /** A line that is ended counts without a carriage return at its end. */
  lemma LinesOfOne(line: Text)
    requires 10 !in line
    ensures Lines(line + [10]) == [if line != [] && line[|line| - 1] == 13 then line[..|line| - 1] else line]
  {
    var content := line + [NEWLINE];
    assert content[..|line|] == line;
    LineLengthIs(content, |line|);
    assert content[|line| + 1..] == [];
  }

  // ----- Records

  datatype Envelope = Envelope(version: nat, row: Row, checksum: Bytes)

  datatype LedgerError =
    | UnsupportedVersion
    | ChecksumMismatch
    | InvalidRecord
    | TooLarge
    | AtLine(error: LedgerError, line: nat)

  /** The JSON codec and the digest of a row's JSON. */
  datatype Codec = Codec(
    encode: Envelope -> Text,
    decode: Text -> Option<Envelope>,
    decodeRow: Text -> Option<Row>,
    digest: Row -> Bytes)

  /** Text that UTF-8 can hold. */
  ghost predicate IsText(s: Text) {
    forall i | 0 <= i < |s| :: s[i] < 0xD800 || 0xE000 <= s[i] < 0x11_0000
  }

  ghost predicate IsOptionalText(s: Option<Text>) {
    s.Some? ==> IsText(s.value)
  }

  /** The row fits the widths of its fields. */
  ghost predicate ValidRow(r: Row) {
    && -0x8000_0000_0000_0000 <= r.recordedAtEpoch < 0x8000_0000_0000_0000
    && IsText(r.source) && IsText(r.operation) && IsText(r.outcome)
    && IsOptionalText(r.model) && IsOptionalText(r.requestId)
    && IsOptionalText(r.metadata.profileName) && IsOptionalText(r.metadata.accountHint)
    && IsOptionalText(r.metadata.emailDomain)
    && r.inputTokens <= U64_MAX && r.outputTokens <= U64_MAX && r.cachedInputTokens <= U64_MAX
    && r.reasoningTokens <= U64_MAX && r.totalTokens <= U64_MAX && r.costMicros <= U64_MAX
  }

  ghost predicate ValidEnvelope(e: Envelope) {
    e.version < 256 && ValidRow(e.row) && IsAscii(e.checksum)
  }

  /** What a JSON codec is known by: decoding undoes encoding; an encoding is one line that starts and ends with a
      visible character; no part of an encoding from its start decodes, nor does an encoding after anything visible. */
  ghost predicate Lawful(codec: Codec) {
    forall e: Envelope | ValidEnvelope(e) :: LawfulEncoding(codec, e, codec.encode(e))
  }

  ghost predicate LawfulEncoding(codec: Codec, e: Envelope, line: Text) {
    && codec.decode(line) == Some(e)
    && IsOneLine(line)
    && (forall k | 0 < k < |line| :: DecodesAsNothing(codec, line[..k]))
    && (forall before: Text | before != [] && !IsSpace(before[0]) :: DecodesAsNothing(codec, before + line))
  }

  ghost predicate DecodesAsNothing(codec: Codec, text: Text) {
    codec.decode(text) == None && codec.decodeRow(text) == None
  }

  predicate IsOneLine(line: Text) {
    line != [] && NEWLINE !in line && !IsSpace(line[0]) && !IsSpace(line[|line| - 1])
  }

  /** The record of a row, without the newline that ends it. */
  function Record(codec: Codec, row: Row): Text {
    var normalized := Normalized(row);
    codec.encode(Envelope(USAGE_LEDGER_RECORD_VERSION, normalized, ChecksumText(codec.digest(normalized))))
  }

  function ParseLine(codec: Codec, line: Text): Result<Option<Row>, LedgerError> {
    var trimmed := Trim(line);
    if trimmed == [] then Ok(None)
    else
      match codec.decode(trimmed)
      case Some(e) =>
        if e.version != USAGE_LEDGER_RECORD_VERSION then Err(UnsupportedVersion)
        else if !ConstantTimeTextEq(ChecksumText(codec.digest(e.row)), e.checksum) then Err(ChecksumMismatch)
        else Ok(Some(Normalized(e.row)))
      case None =>
        match codec.decodeRow(trimmed)
        case None => Err(InvalidRecord)
        case Some(row) => Ok(Some(Normalized(row)))
  }

  function ParseLines(codec: Codec, lines: seq<Text>): Result<seq<Row>, LedgerError> {
    if lines == [] then Ok([]) else
      var n := |lines| - 1;
      match ParseLines(codec, lines[..n])
      case Err(e) => Err(e)
      case Ok(rows) =>
        match ParseLine(codec, lines[n])
        case Err(e) => Err(AtLine(e, n + 1))
        case Ok(None) => Ok(rows)
        case Ok(Some(row)) => Ok(rows + [row])
  }

  function CodePointWidth(c: nat): nat {
    if c < 0x80 then 1 else if c < 0x800 then 2 else if c < 0x1_0000 then 3 else 4
  }

  function ByteLength(content: Text): nat {
    if content == [] then 0 else ByteLength(content[..|content| - 1]) + CodePointWidth(content[|content| - 1])
  }

  function ReadResult(codec: Codec, content: Option<Text>): Result<seq<Row>, LedgerError> {
    match content
    case None => Ok([])
    case Some(text) =>
      if ByteLength(text) > USAGE_LEDGER_READ_MAX_BYTES then Err(TooLarge) else ParseLines(codec, Lines(text))
  }

  /** The ledger file; None while it does not exist. */
  class Ledger {
    const codec: Codec
    var content: Option<Text>

    constructor (codec: Codec)
      ensures this.codec == codec && content == None
    {
      this.codec := codec;
      content := None;
    }

    function Existing(): Text
      reads this
    {
      if content.Some? then content.value else []
    }

    method AppendRow(row: Row)
      modifies this
      ensures content == Some(WithRow(codec, old(Existing()), row))
      ensures var n := Normalized(row);
              content.value == old(Existing()) + (codec.encode(Envelope(1, n, ChecksumText(codec.digest(n)))) + [10])
    {
      var normalized := Normalized(row);
      var checksum := RenderChecksum(codec.digest(normalized));
      var line := codec.encode(Envelope(USAGE_LEDGER_RECORD_VERSION, normalized, checksum));
      content := Some(Existing() + (line + [NEWLINE]));
    }

    method ReadRows() returns (r: Result<seq<Row>, LedgerError>)
      ensures r == ReadResult(codec, content)
      ensures content.None? ==> r == Ok([])
      ensures r == Err(TooLarge) <==> content.Some? && ByteLength(content.value) > 67_108_864
    {
      if content.None? {
        return Ok([]);
      }
      if ByteLength(content.value) > USAGE_LEDGER_READ_MAX_BYTES {
        return Err(TooLarge);
      }
      var lines := Lines(content.value);
      var rows: seq<Row> := [];
      for i := 0 to |lines|
        invariant ParseLines(codec, lines[..i]) == Ok(rows)
      {
        assert lines[..i + 1][..i] == lines[..i];
        var parsed := ParseLine(codec, lines[i]);
        if parsed.Err? {
          ParseStopsAt(codec, lines, i);
          return Err(AtLine(parsed.error, i + 1));
        }
        if parsed.value.Some? {
          rows := rows + [parsed.value.value];
        }
      }
      assert lines[..|lines|] == lines;
      r := Ok(rows);
    }
  }

  lemma {:induction false} ParseStopsAt(codec: Codec, lines: seq<Text>, i: nat)
    requires i < |lines| && ParseLines(codec, lines[..i + 1]).Err?
    ensures ParseLines(codec, lines) == ParseLines(codec, lines[..i + 1])
    decreases |lines|
  {
    if i + 1 == |lines| {
      assert lines[..i + 1] == lines;
    } else {
      var n := |lines| - 1;
      assert lines[..n][..i + 1] == lines[..i + 1];
      ParseStopsAt(codec, lines[..n], i);
    }
  }

  // ----- Round trip

  function EnvelopeOf(codec: Codec, row: Row): Envelope {
    Envelope(USAGE_LEDGER_RECORD_VERSION, Normalized(row), ChecksumText(codec.digest(Normalized(row))))
  }

  lemma TokensAreText(value: Text, fallback: Text, maxChars: nat)
    requires IsToken(fallback, maxChars)
    ensures IsText(NormalizeUsageToken(value, fallback, maxChars))
  {
    TokensAreTokens(value, fallback, maxChars);
  }

  lemma NormalizedIsValid(r: Row)
    requires ValidRow(r)
    ensures ValidRow(Normalized(r))
  {
    TokensAreText(r.source, UNKNOWN, 64);
    TokensAreText(r.operation, UNKNOWN, 64);
    TokensAreText(r.outcome, UNKNOWN, 32);
    if r.model.Some? {
      TokensAreText(r.model.value, [], 128);
    }
    if r.requestId.Some? {
      TokensAreText(r.requestId.value, [], 128);
    }
  }

  lemma RecordIsLawful(codec: Codec, row: Row)
    requires Lawful(codec) && ValidRow(row)
    ensures LawfulEncoding(codec, EnvelopeOf(codec, row), Record(codec, row))
  {
    NormalizedIsValid(row);
    ChecksumTextIsAscii(codec.digest(Normalized(row)));
    assert ValidEnvelope(EnvelopeOf(codec, row));
  }

  /** A record parses back to the normalised row. */
  lemma RecordParsesBack(codec: Codec, row: Row)
    requires Lawful(codec) && ValidRow(row)
    ensures ParseLine(codec, Record(codec, row)) == Ok(Some(Normalized(row)))
  {
    RecordIsLawful(codec, row);
    var e := EnvelopeOf(codec, row);
    assert Trim(Record(codec, row)) == Record(codec, row);
    ConstantTimeEqIsEquality(e.checksum, e.checksum);
    NormalizedIsIdempotent(row);
  }

  function AppendAll(codec: Codec, content: Text, rows: seq<Row>): Text
    decreases |rows|
  {
    if rows == [] then content
    else AppendAll(codec, WithRow(codec, content, rows[0]), rows[1..])
  }

  function WithRow(codec: Codec, content: Text, row: Row): Text {
    content + (Record(codec, row) + [NEWLINE])
  }

  function NormalizedAll(rows: seq<Row>): (all: seq<Row>)
    ensures |all| == |rows| && forall i | 0 <= i < |rows| :: all[i] == Normalized(rows[i])
  {
    if rows == [] then [] else [Normalized(rows[0])] + NormalizedAll(rows[1..])
  }

  /** The file reads well and yields these rows. */
  ghost predicate Reads(codec: Codec, content: Text, rows: seq<Row>) {
    EndsInNewline(content) && ParseLines(codec, Lines(content)) == Ok(rows)
  }

  lemma {:induction false} AppendedLinesParse(codec: Codec, content: Text, present: seq<Row>, rows: seq<Row>)
    requires Lawful(codec) && Reads(codec, content, present) && forall row | row in rows :: ValidRow(row)
    ensures Reads(codec, AppendAll(codec, content, rows), present + NormalizedAll(rows))
    decreases |rows|
  {
    if rows == [] {
      ConcatEmpty(present);
    } else {
      AppendedLine(codec, content, present, rows[0]);
      AppendedLinesParse(codec, WithRow(codec, content, rows[0]), present + [Normalized(rows[0])], rows[1..]);
      Associate(present, [Normalized(rows[0])], NormalizedAll(rows[1..]));
    }
  }

  lemma AppendedLine(codec: Codec, before: Text, present: seq<Row>, row: Row)
    requires Lawful(codec) && Reads(codec, before, present) && ValidRow(row)
    ensures Reads(codec, WithRow(codec, before, row), present + [Normalized(row)])
  {
    RecordParsesBack(codec, row);
    RecordIsOneLine(codec, row);
    LineAppended(codec, before, present, Record(codec, row), Normalized(row));
  }

  lemma LineAppended(codec: Codec, before: Text, present: seq<Row>, line: Text, row: Row)
    requires Reads(codec, before, present) && IsOneLine(line) && ParseLine(codec, line) == Ok(Some(row))
    ensures Reads(codec, before + (line + [NEWLINE]), present + [row])
  {
    LinesOfOne(line);
    LinesConcat(before, line + [NEWLINE]);
    ParseLast(codec, Lines(before), present, line);
  }

  lemma ParseLast(codec: Codec, lines: seq<Text>, present: seq<Row>, line: Text)
    requires ParseLines(codec, lines) == Ok(present)
    ensures ParseLines(codec, lines + [line]) ==
            match ParseLine(codec, line)
            case Err(e) => Err(AtLine(e, |lines| + 1))
            case Ok(None) => Ok(present)
            case Ok(Some(row)) => Ok(present + [row])
  {
    assert (lines + [line])[..|lines|] == lines;
  }

  lemma RecordIsOneLine(codec: Codec, row: Row)
    requires Lawful(codec) && ValidRow(row)
    ensures IsOneLine(Record(codec, row))
  {
    RecordIsLawful(codec, row);
  }

  /** After any appends to a ledger that reads well, reading returns its rows and then the normalised new ones in order,
      or refuses the file for its size. */
  lemma LedgerRoundTrip(codec: Codec, content: Text, present: seq<Row>, rows: seq<Row>)
    requires Lawful(codec) && Reads(codec, content, present) && forall row | row in rows :: ValidRow(row)
    ensures var after := AppendAll(codec, content, rows);
            ReadResult(codec, Some(after)) ==
            if ByteLength(after) > USAGE_LEDGER_READ_MAX_BYTES then Err(TooLarge)
            else Ok(present + NormalizedAll(rows))
  {
    AppendedLinesParse(codec, content, present, rows);
  }

  /** Clean rows come back as they were given. */
  lemma CleanRowsComeBack(codec: Codec, content: Text, present: seq<Row>, rows: seq<Row>)
    requires Lawful(codec) && Reads(codec, content, present)
    requires forall row | row in rows :: ValidRow(row) && IsClean(row)
    ensures var after := AppendAll(codec, content, rows);
            ByteLength(after) <= 67_108_864 ==> ReadResult(codec, Some(after)) == Ok(present + rows)
  {
    LedgerRoundTrip(codec, content, present, rows);
    forall i | 0 <= i < |rows|
      ensures NormalizedAll(rows)[i] == rows[i]
    {
      CleanRowIsKept(rows[i]);
    }
    assert NormalizedAll(rows) == rows;
  }

  /** An envelope is accepted exactly when its version is known and its checksum is that of its own row, the version
      being looked at first; any other digest is refused. */
  lemma EnvelopeIsChecked(codec: Codec, line: Text, e: Envelope)
    requires Trim(line) != [] && codec.decode(Trim(line)) == Some(e)
    ensures ParseLine(codec, line) ==
            if e.version != 1 then Err(UnsupportedVersion)
            else if e.checksum != ChecksumText(codec.digest(e.row)) then Err(ChecksumMismatch)
            else Ok(Some(Normalized(e.row)))
    ensures forall d | d != codec.digest(e.row) && e.checksum == ChecksumText(d) :: ParseLine(codec, line).Err?
  {
    ConstantTimeEqIsEquality(ChecksumText(codec.digest(e.row)), e.checksum);
    forall d | d != codec.digest(e.row) && e.checksum == ChecksumText(d)
      ensures ParseLine(codec, line).Err?
    {
      if ChecksumText(d) == ChecksumText(codec.digest(e.row)) {
        ChecksumTextIsInjective(d, codec.digest(e.row));
      }
    }
  }

  /** A line without an envelope: a blank one holds no row, a bare row is taken as it is, anything else is refused. */
  lemma BareLineIsRead(codec: Codec, line: Text, visible: Text, lo: nat, hi: nat)
    requires IsVisiblePart(line, lo, hi) && visible == line[lo..hi] && codec.decode(visible) == None
    ensures ParseLine(codec, line) ==
            if visible == [] then Ok(None)
            else if codec.decodeRow(visible) == None then Err(InvalidRecord)
            else Ok(Some(Normalized(codec.decodeRow(visible).value)))
  {
    var low, high := TrimIs(line);
    SameVisiblePart(line, lo, hi, low, high);
    assert Trim(line) == visible;
  }

  type LineParser = Text -> Result<Option<Row>, LedgerError>

  function ParserOf(codec: Codec): LineParser {
    line => ParseLine(codec, line)
  }

  /** No line is refused, and the rows are those of the lines that hold one, in order. */
  ghost predicate RowsAt(parse: LineParser, lines: seq<Text>, rows: seq<Row>, positions: seq<nat>) {
    && |positions| == |rows|
    && (forall k | 0 <= k < |rows| ::
          positions[k] < |lines| && parse(lines[positions[k]]) == Ok(Some(rows[k])))
    && (forall j, k | 0 <= j < k < |rows| :: positions[j] < positions[k])
    && (forall i | 0 <= i < |lines| ::
          parse(lines[i]).Ok? && (parse(lines[i]).value.Some? ==> i in positions))
  }

  /** The error is that of the first line that is refused, which it names. */
  ghost predicate FirstRefused(parse: LineParser, lines: seq<Text>, e: LedgerError) {
    && e.AtLine? && 0 < e.line <= |lines|
    && parse(lines[e.line - 1]) == Err(e.error)
    && (forall i | 0 <= i < e.line - 1 :: parse(lines[i]).Ok?)
  }

  lemma RowsAtNext(parse: LineParser, lines: seq<Text>, rows: seq<Row>, positions: seq<nat>, line: Text)
    requires RowsAt(parse, lines, rows, positions) && parse(line).Ok?
    ensures match parse(line).value
            case None => RowsAt(parse, lines + [line], rows, positions)
            case Some(row) => RowsAt(parse, lines + [line], rows + [row], positions + [|lines|])
  {
  }

  lemma RefusedNext(parse: LineParser, lines: seq<Text>, rows: seq<Row>, positions: seq<nat>, line: Text)
    requires RowsAt(parse, lines, rows, positions) && parse(line).Err?
    ensures FirstRefused(parse, lines + [line], AtLine(parse(line).error, |lines| + 1))
  {
  }

  lemma StillRefused(parse: LineParser, lines: seq<Text>, e: LedgerError, line: Text)
    requires FirstRefused(parse, lines, e)
    ensures FirstRefused(parse, lines + [line], e)
  {
  }

  /** All lines are read, in order, up to the first that is refused. */
  lemma {:induction false} LinesAreRead(codec: Codec, lines: seq<Text>) returns (positions: seq<nat>)
    ensures match ParseLines(codec, lines)
            case Ok(rows) => RowsAt(ParserOf(codec), lines, rows, positions)
            case Err(e) => FirstRefused(ParserOf(codec), lines, e)
  {
    positions := [];
    if lines != [] {
      var n := |lines| - 1;
      assert lines == lines[..n] + [lines[n]];
      positions := LinesAreRead(codec, lines[..n]);
      match ParseLines(codec, lines[..n]) {
        case Err(e) =>
          StillRefused(ParserOf(codec), lines[..n], e, lines[n]);
        case Ok(rows) =>
          if ParseLine(codec, lines[n]).Err? {
            RefusedNext(ParserOf(codec), lines[..n], rows, positions, lines[n]);
          } else {
            RowsAtNext(ParserOf(codec), lines[..n], rows, positions, lines[n]);
            if ParseLine(codec, lines[n]).value.Some? {
              positions := positions + [n];
            }
          }
      }
    }
  }

  // ----- Interrupted appends

  /** A record left without its newline and the record after it are one line. */
  lemma TornRecordSwallowsNext(content: Text, torn: Text, record: Text)
    requires EndsInNewline(content) && NEWLINE !in torn && IsOneLine(record)
    ensures Lines(content + torn + (record + [NEWLINE])) == Lines(content) + [torn + record]
  {
    Associate(content, torn, record + [NEWLINE]);
    Associate(torn, record, [NEWLINE]);
    LinesConcat(content, torn + record + [NEWLINE]);
    LastOfConcat(torn, record);
    LinesOfOne(torn + record);
  }

  lemma LastOfConcat(a: Text, b: Text)
    requires b != []
    ensures (a + b)[|a + b| - 1] == b[|b| - 1] && (NEWLINE !in a && NEWLINE !in b ==> NEWLINE !in a + b)
  {
  }

  /** What reading a ledger comes to whose last line is `line`. */
  function ReadWithLine(codec: Codec, content: Text, present: seq<Row>, line: Text): Result<seq<Row>, LedgerError> {
    match ParseLine(codec, line)
    case Err(e) => Err(AtLine(e, |Lines(content)| + 1))
    case Ok(None) => Ok(present)
    case Ok(Some(row)) => Ok(present + [row])
  }

  lemma LastLineDecides(codec: Codec, content: Text, present: seq<Row>, line: Text, all: Text)
    requires Reads(codec, content, present) && Same(Lines(all), Lines(content) + [line])
    requires ByteLength(all) <= USAGE_LEDGER_READ_MAX_BYTES
    ensures Same(ReadResult(codec, Some(all)), ReadWithLine(codec, content, present, line))
  {
    ParseLast(codec, Lines(content), present, line);
  }

  lemma {:induction false} BlankTrims(a: Text, b: Text)
    requires IsOneLine(b)
    ensures Trim(a) == [] ==> Trim(a + b) == b
    ensures Trim(a) != [] ==> TrimStart(a) != [] && !IsSpace(TrimStart(a)[0]) && Trim(a + b) == TrimStart(a) + b
  {
    if a == [] {
      assert a + b == b;
    } else if IsSpace(a[0]) {
      assert (a + b)[1..] == a[1..] + b;
      BlankTrims(a[1..], b);
    } else {
      VisibleStays(a);
      assert (a + b)[|a + b| - 1] == b[|b| - 1];
    }
  }

  lemma {:induction false} VisibleStays(s: Text)
    requires s != [] && !IsSpace(s[0])
    ensures TrimEnd(s) != [] && TrimEnd(s) <= s
  {
    if IsSpace(s[|s| - 1]) {
      VisibleStays(s[..|s| - 1]);
    }
  }

  /** After an append that follows a fragment without its newline: all rows are read, the new one included, exactly when
      the fragment is blank; otherwise no row is, and the error names the line of the fragment. */
  lemma TornRecordIsFatal(codec: Codec, content: Text, present: seq<Row>, torn: Text, row: Row)
    requires Lawful(codec) && Reads(codec, content, present) && NEWLINE !in torn && ValidRow(row)
    requires ByteLength(WithRow(codec, content + torn, row)) <= USAGE_LEDGER_READ_MAX_BYTES
    ensures var r := ReadResult(codec, Some(WithRow(codec, content + torn, row)));
            && (r == Ok(present + [Normalized(row)]) <==> Trim(torn) == [])
            && (Trim(torn) != [] ==> r == Err(AtLine(InvalidRecord, |Lines(content)| + 1)))
  {
    var line := torn + Record(codec, row);
    TornLines(codec, content, torn, row);
    LastLineDecides(codec, content, present, line, WithRow(codec, content + torn, row));
    TornLineParses(codec, torn, row);
    TornOutcome(codec, content, present, torn, row, line);
  }

  lemma TornOutcome(codec: Codec, content: Text, present: seq<Row>, torn: Text, row: Row, line: Text)
    requires ParseLine(codec, line) == if Trim(torn) == [] then Ok(Some(Normalized(row))) else Err(InvalidRecord)
    ensures ReadWithLine(codec, content, present, line) ==
            if Trim(torn) == [] then Ok(present + [Normalized(row)])
            else Err(AtLine(InvalidRecord, |Lines(content)| + 1))
  {
  }

  lemma TornLines(codec: Codec, content: Text, torn: Text, row: Row)
    requires Lawful(codec) && EndsInNewline(content) && NEWLINE !in torn && ValidRow(row)
    ensures Same(Lines(WithRow(codec, content + torn, row)), Lines(content) + [torn + Record(codec, row)])
  {
    RecordIsOneLine(codec, row);
    TornRecordSwallowsNext(content, torn, Record(codec, row));
  }

  /** The line that a fragment makes with the record after it. */
  lemma TornLineParses(codec: Codec, torn: Text, row: Row)
    requires Lawful(codec) && NEWLINE !in torn && ValidRow(row)
    ensures ParseLine(codec, torn + Record(codec, row)) ==
            if Trim(torn) == [] then Ok(Some(Normalized(row))) else Err(InvalidRecord)
  {
    var record := Record(codec, row);
    RecordIsLawful(codec, row);
    BlankTrims(torn, record);
    if Trim(torn) == [] {
      RecordParsesBack(codec, row);
      TrimmedParses(codec, torn + record, record);
    } else {
      assert DecodesAsNothing(codec, TrimStart(torn) + record);
      NothingDecoded(codec, torn + record, TrimStart(torn) + record);
    }
  }

  lemma TrimmedParses(codec: Codec, line: Text, record: Text)
    requires IsOneLine(record) && Same(Trim(line), record)
    ensures ParseLine(codec, line) == ParseLine(codec, record)
  {
    assert Same(Trim(record), record);
  }

  lemma NothingDecoded(codec: Codec, line: Text, visible: Text)
    requires Same(Trim(line), visible) && visible != [] && DecodesAsNothing(codec, visible)
    ensures ParseLine(codec, line) == Err(InvalidRecord)
  {
  }

  /** An append cut off within its record leaves a ledger that cannot be read, now and after the next append; cut off
      just before the newline, it can be read until the next append. */
  lemma CutOffAppend(codec: Codec, content: Text, present: seq<Row>, cut: Row, k: nat, row: Row)
    requires Lawful(codec) && Reads(codec, content, present) && ValidRow(cut) && ValidRow(row)
    requires 0 < k <= |Record(codec, cut)|
    ensures var torn := content + Record(codec, cut)[..k];
            && (ByteLength(torn) <= USAGE_LEDGER_READ_MAX_BYTES ==>
                  Same(ReadResult(codec, Some(torn)),
                       if k < |Record(codec, cut)| then Err(AtLine(InvalidRecord, |Lines(content)| + 1))
                       else Ok(present + [Normalized(cut)])))
            && (ByteLength(WithRow(codec, torn, row)) <= USAGE_LEDGER_READ_MAX_BYTES ==>
                  Same(ReadResult(codec, Some(WithRow(codec, torn, row))),
                       Err(AtLine(InvalidRecord, |Lines(content)| + 1))))
  {
    var torn := Record(codec, cut)[..k];
    CutOffHasNoNewline(codec, cut, k);
    CutOffLine(codec, cut, k);
    CutOffIsRead(codec, content, present, cut, torn, k == |Record(codec, cut)|);
    CutOffStaysFatal(codec, content, present, torn, row);
  }

  lemma CutOffIsRead(codec: Codec, content: Text, present: seq<Row>, cut: Row, torn: Text, whole: bool)
    requires Reads(codec, content, present) && torn != [] && NEWLINE !in torn
    requires ParseLine(codec, torn) == if whole then Ok(Some(Normalized(cut))) else Err(InvalidRecord)
    ensures ByteLength(content + torn) <= USAGE_LEDGER_READ_MAX_BYTES ==>
              Same(ReadResult(codec, Some(content + torn)),
                   if whole then Ok(present + [Normalized(cut)])
                   else Err(AtLine(InvalidRecord, |Lines(content)| + 1)))
  {
    OpenLineIsRead(codec, content, present, torn);
  }

  lemma CutOffStaysFatal(codec: Codec, content: Text, present: seq<Row>, torn: Text, row: Row)
    requires Lawful(codec) && Reads(codec, content, present) && ValidRow(row)
    requires NEWLINE !in torn && Trim(torn) != []
    ensures ByteLength(WithRow(codec, content + torn, row)) <= USAGE_LEDGER_READ_MAX_BYTES ==>
              Same(ReadResult(codec, Some(WithRow(codec, content + torn, row))),
                   Err(AtLine(InvalidRecord, |Lines(content)| + 1)))
  {
    if ByteLength(WithRow(codec, content + torn, row)) <= USAGE_LEDGER_READ_MAX_BYTES {
      TornRecordIsFatal(codec, content, present, torn, row);
    }
  }

  lemma CutOffHasNoNewline(codec: Codec, cut: Row, k: nat)
    requires Lawful(codec) && ValidRow(cut) && 0 < k <= |Record(codec, cut)|
    ensures NEWLINE !in Record(codec, cut)[..k]
  {
    RecordIsOneLine(codec, cut);
  }

  /** A last line without its newline is read like any other. */
  lemma OpenLineIsRead(codec: Codec, content: Text, present: seq<Row>, line: Text)
    requires Reads(codec, content, present) && line != [] && NEWLINE !in line
    ensures ByteLength(content + line) <= USAGE_LEDGER_READ_MAX_BYTES ==>
              Same(ReadResult(codec, Some(content + line)), ReadWithLine(codec, content, present, line))
  {
    LinesConcat(content, line);
    LastLineOpen(line);
    if ByteLength(content + line) <= USAGE_LEDGER_READ_MAX_BYTES {
      LastLineDecides(codec, content, present, line, content + line);
    }
  }

  lemma LastLineOpen(line: Text)
    requires line != [] && NEWLINE !in line
    ensures Lines(line) == [line]
  {
    assert line[..|line|] == line;
    LineLengthIs(line, |line|);
  }

  lemma CutOffLine(codec: Codec, cut: Row, k: nat)
    requires Lawful(codec) && ValidRow(cut) && 0 < k <= |Record(codec, cut)|
    ensures ParseLine(codec, Record(codec, cut)[..k]) ==
            if k < |Record(codec, cut)| then Err(InvalidRecord) else Ok(Some(Normalized(cut)))
    ensures Trim(Record(codec, cut)[..k]) != []
  {
    var record := Record(codec, cut);
    RecordIsLawful(codec, cut);
    if k == |record| {
      assert record[..k] == record;
      RecordParsesBack(codec, cut);
    } else {
      var torn := record[..k];
      VisibleStays(torn);
      var m := |TrimEnd(torn)|;
      assert Trim(torn) == record[..m];
      assert DecodesAsNothing(codec, record[..m]);
    }
  }
}
