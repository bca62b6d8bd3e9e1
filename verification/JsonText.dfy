/**
 * A reader of JSON text, after sections 2 to 7 of RFC 8259, and what it reads from the encoding.
 *
 * The reader takes no insignificant white space, and of the `\u` escapes those of code points below
 * 128. It shares nothing with the writer but the values; its bytes are those of the standard.
 */
module JsonText {
  import opened Basics
  import opened JsonBoundary
  import opened JsonTreeLaws

  // ----- The reader

  /** What was read, and the text after it. */
  datatype Reading<T> = Failed | Read(value: T, rest: Bytes)

  predicate IsDigit(b: byte) {
    0x30 <= b <= 0x39
  }

  function HexValue(b: byte): Option<byte> {
    if IsDigit(b) then Some(b - 0x30)
    else if 0x41 <= b <= 0x46 then Some(b - 0x37)
    else if 0x61 <= b <= 0x66 then Some(b - 0x57)
    else None
  }

  /** The text starts with a backslash. */
  function ReadEscape(s: Bytes): (r: Reading<byte>)
    ensures r.Read? ==> |r.rest| < |s|
  {
    if |s| < 2 then Failed
    else if s[1] == 0x22 || s[1] == 0x5C || s[1] == 0x2F then Read(s[1], s[2..])
    else if s[1] == 0x62 then Read(0x08, s[2..])
    else if s[1] == 0x66 then Read(0x0C, s[2..])
    else if s[1] == 0x6E then Read(0x0A, s[2..])
    else if s[1] == 0x72 then Read(0x0D, s[2..])
    else if s[1] == 0x74 then Read(0x09, s[2..])
    else if s[1] == 0x75 && |s| >= 6 && s[2] == 0x30 && s[3] == 0x30 then
      match (HexValue(s[4]), HexValue(s[5]))
      case (Some(high), Some(low)) => if high < 8 then Read(high * 16 + low, s[6..]) else Failed
      case _ => Failed
    else Failed
  }

  function After<T>(first: T, more: Reading<seq<T>>): Reading<seq<T>> {
    match more
    case Failed => Failed
    case Read(values, rest) => Read([first] + values, rest)
  }

  /** The characters of a string, up to and with its closing quotation mark. */
  function ReadChars(s: Bytes): (r: Reading<Bytes>)
    ensures r.Read? ==> |r.rest| < |s|
    decreases |s|
  {
    if s == [] || s[0] < 0x20 then Failed
    else if s[0] == 0x22 then Read([], s[1..])
    else if s[0] == 0x5C then
      match ReadEscape(s)
      case Failed => Failed
      case Read(b, rest) => After(b, ReadChars(rest))
    else After(s[0], ReadChars(s[1..]))
  }

  function WithoutDigits(s: Bytes): (t: Bytes)
    ensures |t| <= |s|
  {
    if s != [] && IsDigit(s[0]) then WithoutDigits(s[1..]) else s
  }

  predicate IsExponent(s: Bytes) {
    s == [] ||
    ((s[0] == 0x65 || s[0] == 0x45) &&
     var digits := if |s| > 1 && (s[1] == 0x2B || s[1] == 0x2D) then s[2..] else s[1..];
     digits != [] && WithoutDigits(digits) == [])
  }

  predicate IsFraction(s: Bytes) {
    if s != [] && s[0] == 0x2E then |s| > 1 && IsDigit(s[1]) && IsExponent(WithoutDigits(s[1..]))
    else IsExponent(s)
  }

  predicate IsUnsigned(s: Bytes) {
    s != [] && IsDigit(s[0]) && IsFraction(if s[0] == 0x30 then s[1..] else WithoutDigits(s))
  }

  /** A number of section 6 of RFC 8259. */
  predicate IsNumber(s: Bytes) {
    s != [] && IsUnsigned(if s[0] == 0x2D then s[1..] else s)
  }

  predicate IsNumberByte(b: byte) {
    IsDigit(b) || b == 0x2B || b == 0x2D || b == 0x2E || b == 0x45 || b == 0x65
  }

  function NumberRun(s: Bytes): (n: nat)
    ensures n <= |s|
  {
    if s != [] && IsNumberByte(s[0]) then 1 + NumberRun(s[1..]) else 0
  }

  function ReadNumber(s: Bytes): (r: Reading<Json>)
    ensures r.Read? ==> |r.rest| < |s|
  {
    var n := NumberRun(s);
    if IsNumber(s[..n]) then Read(Number(s[..n]), s[n..]) else Failed
  }

  function ReadWord(s: Bytes, word: Bytes, v: Json): (r: Reading<Json>)
    requires word != []
    ensures r.Read? ==> |r.rest| < |s|
  {
    if |word| <= |s| && s[..|word|] == word then Read(v, s[|word|..]) else Failed
  }

  function ReadValue(s: Bytes): (r: Reading<Json>)
    ensures r.Read? ==> |r.rest| < |s|
    decreases |s|, 0
  {
    if s == [] then Failed
    else if s[0] == 0x5B then
      if |s| > 1 && s[1] == 0x5D then Read(Array([]), s[2..]) else
        match ReadElements(s[1..])
        case Failed => Failed
        case Read(items, rest) => Read(Array(items), rest)
    else if s[0] == 0x7B then
      if |s| > 1 && s[1] == 0x7D then Read(Object([]), s[2..]) else
        match ReadMembers(s[1..])
        case Failed => Failed
        case Read(entries, rest) => Read(Object(entries), rest)
    else if s[0] == 0x22 then
      match ReadChars(s[1..])
      case Failed => Failed
      case Read(text, rest) => Read(String(text), rest)
    else if s[0] == 0x6E then ReadWord(s, [0x6E, 0x75, 0x6C, 0x6C], Null)
    else if s[0] == 0x74 then ReadWord(s, [0x74, 0x72, 0x75, 0x65], Bool(true))
    else if s[0] == 0x66 then ReadWord(s, [0x66, 0x61, 0x6C, 0x73, 0x65], Bool(false))
    else ReadNumber(s)
  }

  /** The elements of an array, up to and with its closing bracket. */
  function ReadElements(s: Bytes): (r: Reading<seq<Json>>)
    ensures r.Read? ==> |r.rest| < |s|
    decreases |s|, 2
  {
    match ReadValue(s)
    case Failed => Failed
    case Read(v, rest) =>
      if rest != [] && rest[0] == 0x5D then Read([v], rest[1..])
      else if rest != [] && rest[0] == 0x2C then After(v, ReadElements(rest[1..]))
      else Failed
  }

  function ReadMember(s: Bytes): (r: Reading<Entry>)
    ensures r.Read? ==> |r.rest| < |s|
    decreases |s|, 1
  {
    if s == [] || s[0] != 0x22 then Failed else
      match ReadChars(s[1..])
      case Failed => Failed
      case Read(key, colon) =>
        if colon == [] || colon[0] != 0x3A then Failed else
          match ReadValue(colon[1..])
          case Failed => Failed
          case Read(v, rest) => Read(Entry(key, v), rest)
  }

  /** The members of an object, up to and with its closing brace. */
  function ReadMembers(s: Bytes): (r: Reading<seq<Entry>>)
    ensures r.Read? ==> |r.rest| < |s|
    decreases |s|, 2
  {
    match ReadMember(s)
    case Failed => Failed
    case Read(e, rest) =>
      if rest != [] && rest[0] == 0x7D then Read([e], rest[1..])
      else if rest != [] && rest[0] == 0x2C then After(e, ReadMembers(rest[1..]))
      else Failed
  }

  // ----- What it reads from the encoding

  /** Every number literal is a JSON number. */
  predicate NumbersAreJson(v: Json) {
    match v
    case Number(literal) => IsNumber(literal)
    case Array(items) => forall k | 0 <= k < |items| :: NumbersAreJson(items[k])
    case Object(entries) => forall k | 0 <= k < |entries| :: NumbersAreJson(entries[k].value)
    case _ => true
  }

  predicate EndsNumber(rest: Bytes) {
    rest == [] || !IsNumberByte(rest[0])
  }

  lemma HexDigitIsRead(n: byte)
    requires n < 16
    ensures HexValue(HexDigit(n)) == Some(n)
  {
  }

  lemma ControlIsWhole(b: byte)
    requires b < 0x20
    ensures b / 16 < 8 && b % 16 < 16 && b / 16 * 16 + b % 16 == b
  {
  }

  lemma EscapeIsRead(b: byte, rest: Bytes)
    requires b < 0x20 || b == 0x22 || b == 0x5C
    ensures EscapedByte(b) != [] && EscapedByte(b)[0] == 0x5C && ReadEscape(EscapedByte(b) + rest) == Read(b, rest)
  {
    var e := EscapedByte(b);
    SplitAfter(e, rest);
    if |e| == 6 {
      ControlIsWhole(b);
      HexDigitIsRead(b / 16);
      HexDigitIsRead(b % 16);
    }
  }

  lemma ByteIsRead(b: byte, rest: Bytes)
    ensures ReadChars(EscapedByte(b) + rest) == After(b, ReadChars(rest))
  {
    if b < 0x20 || b == 0x22 || b == 0x5C {
      EscapeIsRead(b, rest);
      assert (EscapedByte(b) + rest)[0] == 0x5C;
    } else {
      assert EscapedByte(b) == [b] && ([b] + rest)[1..] == rest;
    }
  }

  lemma {:induction false} TextIsRead(text: Bytes, rest: Bytes)
    ensures ReadChars(EscapedText(text) + ([0x22] + rest)) == Read(text, rest)
  {
    var close := [0x22] + rest;
    if text == [] {
      assert [] + close == close && close[1..] == rest;
    } else {
      TextIsRead(text[1..], rest);
      Associate(EscapedByte(text[0]), EscapedText(text[1..]), close);
      ByteIsRead(text[0], EscapedText(text[1..]) + close);
      assert [text[0]] + text[1..] == text;
    }
  }

  ghost predicate OnlyNumberBytes(s: Bytes) {
    forall i | 0 <= i < |s| :: IsNumberByte(s[i])
  }

  lemma OneMoreByte(s: Bytes, k: nat)
    requires k <= |s| && OnlyNumberBytes(s[k..]) && OnlyNumberBytes(s[..k])
    ensures OnlyNumberBytes(s)
  {
    forall i | 0 <= i < |s|
      ensures IsNumberByte(s[i])
    {
      if i < k {
        assert s[i] == s[..k][i];
      } else {
        assert s[i] == s[k..][i - k];
      }
    }
  }

  lemma {:induction false} DigitsAreNumberBytes(s: Bytes)
    requires OnlyNumberBytes(WithoutDigits(s))
    ensures OnlyNumberBytes(s)
  {
    if s != [] && IsDigit(s[0]) {
      DigitsAreNumberBytes(s[1..]);
      OneMoreByte(s, 1);
    }
  }

  lemma ExponentBytes(s: Bytes)
    requires IsExponent(s)
    ensures OnlyNumberBytes(s)
  {
    if s != [] {
      var k := if |s| > 1 && (s[1] == 0x2B || s[1] == 0x2D) then 2 else 1;
      DigitsAreNumberBytes(s[k..]);
      OneMoreByte(s, k);
    }
  }

  lemma FractionBytes(s: Bytes)
    requires IsFraction(s)
    ensures OnlyNumberBytes(s)
  {
    if s != [] && s[0] == 0x2E {
      ExponentBytes(WithoutDigits(s[1..]));
      DigitsAreNumberBytes(s[1..]);
      OneMoreByte(s, 1);
    } else {
      ExponentBytes(s);
    }
  }

  lemma UnsignedBytes(s: Bytes)
    requires IsUnsigned(s)
    ensures OnlyNumberBytes(s)
  {
    if s[0] == 0x30 {
      FractionBytes(s[1..]);
      OneMoreByte(s, 1);
    } else {
      FractionBytes(WithoutDigits(s));
      DigitsAreNumberBytes(s);
    }
  }

  lemma NumberBytes(s: Bytes)
    requires IsNumber(s)
    ensures (s[0] == 0x2D || IsDigit(s[0])) && OnlyNumberBytes(s)
  {
    if s[0] == 0x2D {
      UnsignedBytes(s[1..]);
      OneMoreByte(s, 1);
    } else {
      UnsignedBytes(s);
    }
  }

  lemma {:induction false} RunOfNumber(s: Bytes, rest: Bytes)
    requires OnlyNumberBytes(s) && EndsNumber(rest)
    ensures NumberRun(s + rest) == |s|
  {
    if s == [] {
      assert [] + rest == rest;
    } else {
      assert (s + rest)[1..] == s[1..] + rest;
      RunOfNumber(s[1..], rest);
    }
  }

  lemma NumberIsRead(literal: Bytes, rest: Bytes)
    requires IsNumber(literal) && EndsNumber(rest)
    ensures ReadValue(literal + rest) == Read(Number(literal), rest)
  {
    NumberBytes(literal);
    RunOfNumber(literal, rest);
    SplitAfter(literal, rest);
  }

  lemma SplitAfter(a: Bytes, b: Bytes)
    requires a != []
    ensures Same((a + b)[..|a|], a) && Same((a + b)[|a|..], b) && (a + b)[0] == a[0]
  {
    assert (a + b)[..|a|] == a && (a + b)[|a|..] == b;
  }

  lemma WordIsRead(v: Json, rest: Bytes)
    requires v.Null? || v.Bool?
    ensures ReadValue(Encode(v) + rest) == Read(v, rest)
  {
    SplitAfter(Encode(v), rest);
  }

  lemma StringIsRead(text: Bytes, rest: Bytes)
    ensures ReadValue(EncodeText(text) + rest) == Read(String(text), rest)
  {
    QuotedIsRead(text, rest);
  }

  lemma QuotedIsRead(text: Bytes, rest: Bytes)
    ensures var s := EncodeText(text) + rest;
            s[0] == 0x22 && ReadChars(s[1..]) == Read(text, rest)
  {
    var s := EncodeText(text) + rest;
    assert s[1..] == EscapedText(text) + ([0x22] + rest);
    TextIsRead(text, rest);
  }

  // ----- Elements and members

  /** The encoding of child k, with its key. */
  function Item(v: Json, k: nat): Bytes
    requires k < Arity(v)
  {
    (if v.Array? then [] else EncodeText(v.entries[k].key) + [0x3A]) + Encode(Child(v, k))
  }

  /** The encoding of child k and all that follows it in v. */
  function Tail(v: Json, k: nat): Bytes
    requires k < Arity(v)
    decreases Arity(v) - k
  {
    Item(v, k) + if k + 1 < Arity(v) then [0x2C] + Tail(v, k + 1) else [if v.Array? then 0x5D else 0x7D]
  }

  lemma LeadAndItem(v: Json, k: nat)
    requires k < Arity(v)
    ensures Same(Lead(v, k) + Encode(Child(v, k)), (if k > 0 then [0x2C] else []) + Item(v, k))
  {
    assert Lead(v, k) + Encode(Child(v, k)) == (if k > 0 then [0x2C] else []) + Item(v, k);
  }

  lemma {:induction false} ChildrenAndTail(v: Json, k: nat)
    requires k < Arity(v)
    ensures Same(EncodeChildren(v, Arity(v)) + [Closing(v)],
                 EncodeChildren(v, k) + ((if k > 0 then [0x2C] else []) + Tail(v, k)))
    decreases Arity(v) - k
  {
    LeadAndItem(v, k);
    var comma: Bytes := if k > 0 then [0x2C] else [];
    if k + 1 < Arity(v) {
      ChildrenAndTail(v, k + 1);
      Regroup(EncodeChildren(v, k), Lead(v, k), Encode(Child(v, k)), comma, Item(v, k), [0x2C] + Tail(v, k + 1));
    } else {
      Regroup(EncodeChildren(v, k), Lead(v, k), Encode(Child(v, k)), comma, Item(v, k), [Closing(v)]);
    }
  }

  lemma Regroup(before: Bytes, lead: Bytes, child: Bytes, comma: Bytes, item: Bytes, tail: Bytes)
    requires Same(lead + child, comma + item)
    ensures Same(before + lead + child + tail, before + (comma + (item + tail)))
  {
    assert before + lead + child + tail == before + (lead + child) + tail;
    assert before + (comma + item) + tail == before + (comma + (item + tail));
  }

  lemma ContainerIs(v: Json)
    requires Arity(v) > 0
    ensures Same(Encode(v), [if v.Array? then 0x5B else 0x7B] + Tail(v, 0))
  {
    ChildrenAndTail(v, 0);
    assert [] + ([] + Tail(v, 0)) == Tail(v, 0);
    Associate([Opening(v)], EncodeChildren(v, Arity(v)), [Closing(v)]);
  }

  lemma EmptyIsRead(v: Json, rest: Bytes)
    requires (v.Array? || v.Object?) && Arity(v) == 0
    ensures ReadValue(Encode(v) + rest) == Read(v, rest)
  {
    var s := Encode(v) + rest;
    assert Encode(v) == [if v.Array? then 0x5B else 0x7B, if v.Array? then 0x5D else 0x7D];
    assert s[2..] == rest;
  }

  /** The reader reads from the encoding of a value, whatever follows it, the value and leaves what follows. */
  lemma {:induction false} EncodingIsRead(v: Json, rest: Bytes)
    requires NumbersAreJson(v) && EndsNumber(rest)
    ensures ReadValue(Encode(v) + rest) == Read(v, rest)
    decreases v, Arity(v) + 1
  {
    match v {
      case Number(literal) => NumberIsRead(literal, rest);
      case String(text) => StringIsRead(text, rest);
      case Null => WordIsRead(v, rest);
      case Bool(_) => WordIsRead(v, rest);
      case Array(items) =>
        if items == [] {
          EmptyIsRead(v, rest);
        } else {
          ContainerIs(v);
          ElementsAreRead(v, 0, rest);
          Associate([0x5B], Tail(v, 0), rest);
          ArrayIsRead(Encode(v) + rest, Tail(v, 0) + rest, items[0..], rest);
          assert items[0..] == items;
        }
      case Object(entries) =>
        if entries == [] {
          EmptyIsRead(v, rest);
        } else {
          ContainerIs(v);
          MembersAreRead(v, 0, rest);
          Associate([0x7B], Tail(v, 0), rest);
          ObjectIsRead(Encode(v) + rest, Tail(v, 0) + rest, entries[0..], rest);
          assert entries[0..] == entries;
        }
    }
  }

  lemma ArrayIsRead(s: Bytes, body: Bytes, items: seq<Json>, rest: Bytes)
    requires Same(s, [0x5B] + body) && body != [] && body[0] != 0x5D && ReadElements(body) == Read(items, rest)
    ensures ReadValue(s) == Read(Array(items), rest)
  {
    assert Same(s[1..], body) by { assert s[1..] == body; }
    assert s[1] == body[0];
  }

  lemma ObjectIsRead(s: Bytes, body: Bytes, entries: seq<Entry>, rest: Bytes)
    requires Same(s, [0x7B] + body) && body != [] && body[0] != 0x7D && ReadMembers(body) == Read(entries, rest)
    ensures ReadValue(s) == Read(Object(entries), rest)
  {
    assert Same(s[1..], body) by { assert s[1..] == body; }
    assert s[1] == body[0];
  }

  /** What follows child k. */
  function Following(v: Json, k: nat, rest: Bytes): Bytes
    requires k < Arity(v)
  {
    if k + 1 < Arity(v) then [0x2C] + (Tail(v, k + 1) + rest) else [if v.Array? then 0x5D else 0x7D] + rest
  }

  lemma TailFollows(v: Json, k: nat, rest: Bytes)
    requires k < Arity(v)
    ensures Same(Tail(v, k) + rest, Item(v, k) + Following(v, k, rest)) && EndsNumber(Following(v, k, rest))
  {
    var end := if v.Array? then [0x5D] else [0x7D];
    if k + 1 < Arity(v) {
      Associate([0x2C], Tail(v, k + 1), rest);
      Associate(Item(v, k), [0x2C] + Tail(v, k + 1), rest);
    } else {
      Associate(Item(v, k), end, rest);
    }
  }

  lemma {:induction false} ElementsAreRead(v: Json, k: nat, rest: Bytes)
    requires v.Array? && k < |v.items| && NumbersAreJson(v)
    ensures Tail(v, k) != [] && (Tail(v, k) + rest)[0] != 0x5D
    ensures ReadElements(Tail(v, k) + rest) == Read(v.items[k..], rest)
    decreases v, Arity(v) - k
  {
    var item, following := v.items[k], Following(v, k, rest);
    TailFollows(v, k, rest);
    EncodingIsRead(item, following);
    FirstByte(item, following);
    assert Same(Item(v, k), Encode(item)) by { assert Item(v, k) == Encode(item); }
    if k + 1 < |v.items| {
      ElementsAreRead(v, k + 1, rest);
      SplitAfter([0x2C], Tail(v, k + 1) + rest);
      ElementsGoOn(Tail(v, k) + rest, item, following, v.items[k + 1..], rest);
      FirstAndRest(v.items, k);
    } else {
      SplitAfter([0x5D], rest);
      FirstAndRest(v.items, k);
    }
  }

  lemma ElementsGoOn(s: Bytes, item: Json, following: Bytes, more: seq<Json>, rest: Bytes)
    requires ReadValue(s) == Read(item, following) && following != [] && following[0] == 0x2C
    requires ReadElements(following[1..]) == Read(more, rest)
    ensures ReadElements(s) == Read([item] + more, rest)
  {
  }

  /** No value starts like the end of an array. */
  lemma FirstByte(v: Json, rest: Bytes)
    requires NumbersAreJson(v)
    ensures Encode(v) != [] && (Encode(v) + rest)[0] != 0x5D
  {
    if v.Number? {
      NumberBytes(v.literal);
    }
  }

  lemma {:induction false} MembersAreRead(v: Json, k: nat, rest: Bytes)
    requires v.Object? && k < |v.entries| && NumbersAreJson(v)
    ensures Tail(v, k) != [] && (Tail(v, k) + rest)[0] != 0x7D
    ensures ReadMembers(Tail(v, k) + rest) == Read(v.entries[k..], rest)
    decreases v, Arity(v) - k
  {
    var e, following := v.entries[k], Following(v, k, rest);
    TailFollows(v, k, rest);
    EncodingIsRead(e.value, following);
    MemberIsRead(e, following, Tail(v, k) + rest);
    if k + 1 < |v.entries| {
      MembersAreRead(v, k + 1, rest);
      SplitAfter([0x2C], Tail(v, k + 1) + rest);
      MembersGoOn(Tail(v, k) + rest, e, following, v.entries[k + 1..], rest);
      FirstAndRest(v.entries, k);
    } else {
      SplitAfter([0x7D], rest);
      FirstAndRest(v.entries, k);
    }
  }

  lemma MembersGoOn(s: Bytes, e: Entry, following: Bytes, more: seq<Entry>, rest: Bytes)
    requires ReadMember(s) == Read(e, following) && following != [] && following[0] == 0x2C
    requires ReadMembers(following[1..]) == Read(more, rest)
    ensures ReadMembers(s) == Read([e] + more, rest)
  {
  }

  lemma FirstAndRest<T>(s: seq<T>, k: nat)
    requires k < |s|
    ensures Same(s[k..], [s[k]] + s[k + 1..]) && (k + 1 == |s| ==> Same(s[k..], [s[k]]))
  {
    assert s[k..] == [s[k]] + s[k + 1..];
    if k + 1 == |s| {
      assert s[k..] == [s[k]];
    }
  }

  lemma MemberIsRead(e: Entry, following: Bytes, s: Bytes)
    requires Same(s, EncodeText(e.key) + [0x3A] + Encode(e.value) + following)
    requires ReadValue(Encode(e.value) + following) == Read(e.value, following)
    ensures s != [] && s[0] == 0x22 && ReadMember(s) == Read(e, following)
  {
    var after := Encode(e.value) + following;
    MemberParts(EncodeText(e.key), Encode(e.value), following);
    QuotedIsRead(e.key, [0x3A] + after);
    SplitAfter([0x3A], after);
    MemberOf(s, e.key, [0x3A] + after, e.value, following);
  }

  lemma MemberParts(quoted: Bytes, value: Bytes, following: Bytes)
    ensures Same(quoted + [0x3A] + value + following, quoted + ([0x3A] + (value + following)))
  {
    assert quoted + [0x3A] + value + following == quoted + ([0x3A] + (value + following));
  }

  lemma MemberOf(s: Bytes, key: Bytes, colon: Bytes, v: Json, following: Bytes)
    requires s != [] && s[0] == 0x22 && ReadChars(s[1..]) == Read(key, colon)
    requires colon != [] && colon[0] == 0x3A && ReadValue(colon[1..]) == Read(v, following)
    ensures ReadMember(s) == Read(Entry(key, v), following)
  {
  }

  // ----- The buffer

  /** A whole text. */
  function ReadWhole(s: Bytes): Option<Json> {
    match ReadValue(s)
    case Failed => None
    case Read(v, rest) => if rest == [] then Some(v) else None
  }

  /** The compact encoding is JSON text for the value. */
  lemma EncodingIsJson(v: Json)
    requires NumbersAreJson(v)
    ensures ReadWhole(Encode(v)) == Some(v)
  {
    EncodingIsRead(v, []);
    ConcatEmpty(Encode(v));
  }

  lemma {:induction false} NumbersInside(v: Json, key: Bytes, i: nat)
    requires NumbersAreJson(v) && i < NodeCount(v)
    ensures NumbersAreJson(Visits(v, key)[i].value)
    decreases v, Arity(v) + 1
  {
    if i > 0 {
      NumbersInChildren(v, Arity(v), i - 1);
    }
  }

  lemma {:induction false} NumbersInChildren(v: Json, n: nat, i: nat)
    requires NumbersAreJson(v) && n <= Arity(v) && i < NodesBefore(v, n)
    ensures NumbersAreJson(ChildVisits(v, n)[i].value)
    decreases v, n
  {
    if i < NodesBefore(v, n - 1) {
      NumbersInChildren(v, n - 1, i);
    } else {
      NumbersInside(Child(v, n - 1), ChildKey(v, n - 1), i - NodesBefore(v, n - 1));
    }
  }

  /** In encoding mode the buffer is JSON text for the value. */
  lemma BufferIsJson(v: Json)
    requires NumbersAreJson(v)
    ensures ReadWhole(Acquired(v, Encoded).raw) == Some(v)
  {
    EncodingIsJson(v);
  }

  /** The span of node i is JSON text for the i-th subvalue in preorder. */
  lemma SpanIsJson(v: Json, i: nat)
    requires NumbersAreJson(v) && i < NodeCount(v)
    ensures var t := Acquired(v, Encoded);
            && SpanEnd(t.nodes[i]) <= |t.raw|
            && ReadWhole(t.raw[t.nodes[i].rawStart..SpanEnd(t.nodes[i])]) == Some(Visits(v, [])[i].value)
  {
    var e := Visits(v, [])[i].value;
    NumbersInside(v, [], i);
    NodeDescribesVisit(v, Encoded, i);
    EncodingIsJson(e);
  }
}
