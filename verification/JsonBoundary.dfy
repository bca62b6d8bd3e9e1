/**
 * Flattening of a JSON value into an array of linked nodes and one compact encoding buffer.
 *
 * This file holds the values (`Json`, `Node`), the compact wire encoding, what the flattened tree
 * of a value is (`Layout`), which values are accepted (`Admit`), and the in-place builder
 * `JsonTree`, proved against those. `JsonTreeLaws` reads the tree back and proves what it promises.
 */
module JsonBoundary {
  import opened Basics

  const APP_JSON_MAX_BYTES: nat := 64 * 1024 * 1024
  const APP_JSON_MAX_NODES: nat := 1_048_576

  type byte = bv8

  type Bytes = seq<byte>

  const QUOTE: byte := 34
  const COMMA: byte := 44
  const COLON: byte := 58
  const BACKSLASH: byte := 92
  const OPEN_ARRAY: byte := 91
  const CLOSE_ARRAY: byte := 93
  const OPEN_OBJECT: byte := 123
  const CLOSE_OBJECT: byte := 125

  // ----- JSON values

  /** Text is UTF-8; a number is known by the literal its serializer prints. */
  datatype Json =
    | Null
    | Bool(flag: bool)
    | Number(literal: Bytes)
    | String(text: Bytes)
    | Array(items: seq<Json>)
    | Object(entries: seq<Entry>)

  datatype Entry = Entry(key: Bytes, value: Json)

  function Arity(v: Json): nat {
    match v
    case Array(items) => |items|
    case Object(entries) => |entries|
    case _ => 0
  }

  function Child(v: Json, k: nat): Json
    requires k < Arity(v)
  {
    if v.Array? then v.items[k] else v.entries[k].value
  }

  /** The key a child is stored under: array elements are stored under the empty key. */
  function ChildKey(v: Json, k: nat): Bytes
    requires k < Arity(v)
  {
    if v.Array? then [] else v.entries[k].key
  }

  /** The decoded text of a string, and nothing for any other value. */
  function Text(v: Json): Bytes {
    if v.String? then v.text else []
  }

  // ----- Compact encoding

  function HexDigit(n: byte): byte
    requires n < 16
  {
    if n < 10 then 48 + n else 87 + n
  }

  function EscapedByte(b: byte): Bytes {
    if b == QUOTE || b == BACKSLASH then [BACKSLASH, b]
    else if b == 8 then [BACKSLASH, 98]
    else if b == 9 then [BACKSLASH, 116]
    else if b == 10 then [BACKSLASH, 110]
    else if b == 12 then [BACKSLASH, 102]
    else if b == 13 then [BACKSLASH, 114]
    else if b < 32 then [BACKSLASH, 117, 48, 48, HexDigit(b / 16), HexDigit(b % 16)]
    else [b]
  }

  function EscapedText(text: Bytes): Bytes {
    if text == [] then [] else EscapedByte(text[0]) + EscapedText(text[1..])
  }

  function EncodeText(text: Bytes): Bytes {
    [QUOTE] + EscapedText(text) + [QUOTE]
  }

  function Opening(v: Json): byte {
    if v.Array? then OPEN_ARRAY else OPEN_OBJECT
  }

  function Closing(v: Json): byte {
    if v.Array? then CLOSE_ARRAY else CLOSE_OBJECT
  }

  /** What precedes child k: the separator after an earlier sibling, and the key of an object entry. */
  function Lead(v: Json, k: nat): Bytes
    requires k < Arity(v)
  {
    (if k > 0 then [COMMA] else []) +
    (if v.Array? then [] else EncodeText(v.entries[k].key) + [COLON])
  }

  function Encode(v: Json): Bytes
    decreases v, Arity(v) + 1
  {
    match v
    case Null => [110, 117, 108, 108]
    case Bool(flag) => if flag then [116, 114, 117, 101] else [102, 97, 108, 115, 101]
    case Number(literal) => literal
    case String(text) => EncodeText(text)
    case _ => [Opening(v)] + EncodeChildren(v, Arity(v)) + [Closing(v)]
  }

  /** The encoding of the first n children with what precedes each. */
  function EncodeChildren(v: Json, n: nat): Bytes
    requires n <= Arity(v)
    decreases v, n
  {
    if n == 0 then [] else EncodeChildren(v, n - 1) + Lead(v, n - 1) + Encode(Child(v, n - 1))
  }

  // ----- Length of the compact encoding, counted without building it

  function EscapedLength(text: Bytes): nat {
    if text == [] then 0 else
      (if text[0] == QUOTE || text[0] == BACKSLASH || text[0] in [8, 9, 10, 12, 13] then 2
       else if text[0] < 32 then 6 else 1) + EscapedLength(text[1..])
  }

  function LeadLength(v: Json, k: nat): nat
    requires k < Arity(v)
  {
    (if k > 0 then 1 else 0) + (if v.Array? then 0 else EscapedLength(v.entries[k].key) + 3)
  }

  function EncodedLength(v: Json): nat
    decreases v, Arity(v) + 1
  {
    match v
    case Null => 4
    case Bool(flag) => if flag then 4 else 5
    case Number(literal) => |literal|
    case String(text) => EscapedLength(text) + 2
    case _ => LengthBefore(v, Arity(v)) + 2
  }

  function LengthBefore(v: Json, n: nat): nat
    requires n <= Arity(v)
    decreases v, n
  {
    if n == 0 then 0 else LengthBefore(v, n - 1) + LeadLength(v, n - 1) + EncodedLength(Child(v, n - 1))
  }

  lemma {:induction false} EscapedTextLength(text: Bytes)
    ensures |EscapedText(text)| == EscapedLength(text)
  {
    if text != [] {
      EscapedTextLength(text[1..]);
    }
  }

  lemma LeadHasLength(v: Json, k: nat)
    requires k < Arity(v)
    ensures |Lead(v, k)| == LeadLength(v, k)
  {
    if v.Object? {
      EscapedTextLength(v.entries[k].key);
    }
  }

  lemma {:induction false} EncodeHasLength(v: Json)
    ensures |Encode(v)| == EncodedLength(v)
    decreases v, Arity(v) + 1
  {
    if v.String? {
      EscapedTextLength(v.text);
    }
    EncodeChildrenHaveLength(v, Arity(v));
  }

  lemma {:induction false} EncodeChildrenHaveLength(v: Json, n: nat)
    requires n <= Arity(v)
    ensures |EncodeChildren(v, n)| == LengthBefore(v, n)
    decreases v, n
  {
    if n > 0 {
      EncodeChildrenHaveLength(v, n - 1);
      LeadHasLength(v, n - 1);
      EncodeHasLength(Child(v, n - 1));
    }
  }

  // ----- Preorder

  /** Every subvalue with the key it is stored under, in preorder. */
  function Visits(v: Json, key: Bytes): (visits: seq<Entry>)
    ensures |visits| == NodeCount(v)
    decreases v, Arity(v) + 1
  {
    [Entry(key, v)] + ChildVisits(v, Arity(v))
  }

  function ChildVisits(v: Json, n: nat): (visits: seq<Entry>)
    requires n <= Arity(v)
    ensures |visits| == NodesBefore(v, n)
    decreases v, n
  {
    if n == 0 then [] else ChildVisits(v, n - 1) + Visits(Child(v, n - 1), ChildKey(v, n - 1))
  }

  function NodeCount(v: Json): (count: nat)
    ensures count > 0
    decreases v, Arity(v) + 1
  {
    1 + NodesBefore(v, Arity(v))
  }

  /** How many nodes the first n children take. */
  function NodesBefore(v: Json, n: nat): nat
    requires n <= Arity(v)
    decreases v, n
  {
    if n == 0 then 0 else NodesBefore(v, n - 1) + NodeCount(Child(v, n - 1))
  }

  // ----- Acceptance

  datatype JsonError = TreeTooLarge | DecodedTooLarge | EncodedTooLarge

  /** The decoded bytes a value acquires by itself: its key, and its text when it is a string. */
  function OwnWeight(v: Json, key: Bytes): nat {
    |key| + |Text(v)|
  }

  function Weight(v: Json, key: Bytes): nat
    decreases v, Arity(v) + 1
  {
    OwnWeight(v, key) + WeightBefore(v, Arity(v))
  }

  function WeightBefore(v: Json, n: nat): nat
    requires n <= Arity(v)
    decreases v, n
  {
    if n == 0 then 0 else WeightBefore(v, n - 1) + Weight(Child(v, n - 1), ChildKey(v, n - 1))
  }

  /** The first limit that appending v exceeds, with `count` nodes and `acquired` bytes before it. */
  function Verdict(v: Json, key: Bytes, count: nat, acquired: nat): Option<JsonError>
    decreases v, Arity(v) + 1
  {
    if count >= APP_JSON_MAX_NODES then Some(TreeTooLarge)
    else if acquired + OwnWeight(v, key) > APP_JSON_MAX_BYTES then Some(DecodedTooLarge)
    else ChildVerdict(v, Arity(v), count + 1, acquired + OwnWeight(v, key))
  }

  function ChildVerdict(v: Json, n: nat, count: nat, acquired: nat): Option<JsonError>
    requires n <= Arity(v)
    decreases v, n
  {
    if n == 0 then None
    else if ChildVerdict(v, n - 1, count, acquired).Some? then ChildVerdict(v, n - 1, count, acquired)
    else Verdict(Child(v, n - 1), ChildKey(v, n - 1), count + NodesBefore(v, n - 1), acquired + WeightBefore(v, n - 1))
  }

  // ----- The flattened tree

  datatype Kind = KNull | KFalse | KTrue | KNumber | KString | KArray | KObject

  datatype Node = Node(
    kind: Kind,
    firstChild: Option<nat>,
    nextSibling: Option<nat>,
    parent: Option<nat>,
    key: Bytes,
    text: Bytes,
    rawStart: nat,
    rawLength: nat)

  /** Whether the compact encoding is written along with the nodes. */
  datatype Wire = Encoded | Omitted

  function KindOf(v: Json): Kind {
    match v
    case Null => KNull
    case Bool(flag) => if flag then KTrue else KFalse
    case Number(_) => KNumber
    case String(_) => KString
    case Array(_) => KArray
    case Object(_) => KObject
  }

  function OnWire(wire: Wire, bytes: Bytes): Bytes {
    if wire.Encoded? then bytes else []
  }

  function WireLength(wire: Wire, length: nat): nat {
    if wire.Encoded? then length else 0
  }

  function ChildIndex(v: Json, at: nat, k: nat): nat
    requires k <= Arity(v)
  {
    at + 1 + NodesBefore(v, k)
  }

  /** Where the raw span of child k starts, when that of v starts at `start`. */
  function ChildStart(v: Json, start: nat, k: nat, wire: Wire): nat
    requires k < Arity(v)
  {
    start + WireLength(wire, 1 + LengthBefore(v, k) + LeadLength(v, k))
  }

  function NextOf(v: Json, at: nat, k: nat): Option<nat>
    requires k < Arity(v)
  {
    if k + 1 < Arity(v) then Some(ChildIndex(v, at, k + 1)) else None
  }

  /** The nodes of v when its own node is number `at` and its raw span starts at `start`. */
  function Layout(v: Json, key: Bytes, parent: Option<nat>, next: Option<nat>,
                  at: nat, start: nat, wire: Wire): (nodes: seq<Node>)
    ensures |nodes| == NodeCount(v)
    decreases v, Arity(v) + 1
  {
    [Node(KindOf(v), if Arity(v) == 0 then None else Some(at + 1), next, parent, key, Text(v),
          start, WireLength(wire, EncodedLength(v)))]
    + ChildLayout(v, Arity(v), at, start, wire)
  }

  function ChildLayout(v: Json, n: nat, at: nat, start: nat, wire: Wire): (nodes: seq<Node>)
    requires n <= Arity(v)
    ensures |nodes| == NodesBefore(v, n)
    decreases v, n
  {
    if n == 0 then [] else
      ChildLayout(v, n - 1, at, start, wire) +
      Layout(Child(v, n - 1), ChildKey(v, n - 1), Some(at), NextOf(v, at, n - 1),
             ChildIndex(v, at, n - 1), ChildStart(v, start, n - 1, wire), wire)
  }

  // ----- The in-place builder

  /** The nodes after n children of v, whose own node is the last of `base`, were appended and linked. */
  ghost function Appended(v: Json, n: nat, base: seq<Node>, start: nat, wire: Wire): (nodes: seq<Node>)
    requires n <= Arity(v) && base != []
    ensures |nodes| == ChildIndex(v, |base| - 1, n)
    decreases n
  {
    if n == 0 then base else
      var at := |base| - 1;
      Linked(Appended(v, n - 1, base, start, wire) + NewChild(v, n - 1, at, start, wire),
             at, PreviousChild(v, at, n - 1), ChildIndex(v, at, n - 1))
  }

  lemma AppendedStep(v: Json, k: nat, base: seq<Node>, start: nat, wire: Wire)
    requires k < Arity(v) && base != []
    ensures var at := |base| - 1;
            Linked(Appended(v, k, base, start, wire) + NewChild(v, k, at, start, wire),
                   at, PreviousChild(v, at, k), ChildIndex(v, at, k))
            == Appended(v, k + 1, base, start, wire)
  {
  }

  ghost function PreviousChild(v: Json, at: nat, k: nat): (previous: Option<nat>)
    requires k <= Arity(v)
    ensures previous.Some? ==> at < previous.value < ChildIndex(v, at, k)
  {
    if k == 0 then None else Some(ChildIndex(v, at, k - 1))
  }

  /** The nodes of child k as appended, before its next sibling is known. */
  ghost function NewChild(v: Json, k: nat, at: nat, start: nat, wire: Wire): (nodes: seq<Node>)
    requires k < Arity(v)
    ensures |nodes| == NodeCount(Child(v, k))
  {
    Layout(Child(v, k), ChildKey(v, k), Some(at), None,
           ChildIndex(v, at, k), ChildStart(v, start, k, wire), wire)
  }

  /** The tree once all children of v are appended and linked. */
  ghost function WithChildren(v: Json, base: seq<Node>, start: nat, wire: Wire): seq<Node>
    requires base != []
  {
    var at := |base| - 1;
    (if Arity(v) == 0 then base else base[at := base[at].(firstChild := Some(at + 1))]) +
    ChildLayout(v, Arity(v), at, start, wire)
  }

  ghost function Linked(nodes: seq<Node>, parent: nat, previous: Option<nat>, child: nat): seq<Node>
    requires parent < |nodes| && (previous.Some? ==> previous.value < |nodes|)
  {
    match previous
    case Some(p) => nodes[p := nodes[p].(nextSibling := Some(child))]
    case None => nodes[parent := nodes[parent].(firstChild := Some(child))]
  }

  /** Links up to the last appended child are final; that child still lacks its next sibling. */
  lemma {:induction false} AppendedNodes(v: Json, n: nat, base: seq<Node>, start: nat, wire: Wire)
    requires 0 < n <= Arity(v) && base != []
    ensures var at := |base| - 1;
            Same(Appended(v, n, base, start, wire),
                 base[at := base[at].(firstChild := Some(at + 1))]
                 + ChildLayout(v, n - 1, at, start, wire) + NewChild(v, n - 1, at, start, wire))
    decreases n
  {
    var at := |base| - 1;
    var first := base[at := base[at].(firstChild := Some(at + 1))];
    if n == 1 {
      LinkFirst(v, base, start, wire);
    } else {
      AppendedNodes(v, n - 1, base, start, wire);
      AppendLater(v, n - 1, base, first, start, wire);
    }
  }

  lemma AppendLater(v: Json, k: nat, base: seq<Node>, first: seq<Node>, start: nat, wire: Wire)
    requires 0 < k < Arity(v) && base != [] && |first| == |base|
    requires var at := |base| - 1;
             Same(Appended(v, k, base, start, wire),
                  first + ChildLayout(v, k - 1, at, start, wire) + NewChild(v, k - 1, at, start, wire))
    ensures var at := |base| - 1;
            Same(Appended(v, k + 1, base, start, wire),
                 first + ChildLayout(v, k, at, start, wire) + NewChild(v, k, at, start, wire))
  {
    LinkLater(v, k, first, |base| - 1, start, wire);
  }

  lemma LinkFirst(v: Json, base: seq<Node>, start: nat, wire: Wire)
    requires 0 < Arity(v) && base != []
    ensures var at := |base| - 1;
            var first := base[at := base[at].(firstChild := Some(at + 1))];
            && Same(Appended(v, 1, base, start, wire), first + NewChild(v, 0, at, start, wire))
            && Same(first + ChildLayout(v, 0, at, start, wire), first)
  {
    var at := |base| - 1;
    var first := base[at := base[at].(firstChild := Some(at + 1))];
    UpdateFront(base, NewChild(v, 0, at, start, wire), at, first[at]);
    ConcatEmpty(first);
  }

  lemma LinkLater(v: Json, k: nat, first: seq<Node>, at: nat, start: nat, wire: Wire)
    requires 0 < k < Arity(v) && |first| == at + 1
    ensures Same(Linked(first + ChildLayout(v, k - 1, at, start, wire) + NewChild(v, k - 1, at, start, wire)
                        + NewChild(v, k, at, start, wire), at, PreviousChild(v, at, k), ChildIndex(v, at, k)),
                 first + ChildLayout(v, k, at, start, wire) + NewChild(v, k, at, start, wire))
  {
    NewChildLinked(v, k - 1, at, start, wire);
    LinkLast(first, ChildLayout(v, k - 1, at, start, wire), NewChild(v, k - 1, at, start, wire),
             NewChild(v, k, at, start, wire), Some(ChildIndex(v, at, k)));
  }

  lemma LinkLast(first: seq<Node>, earlier: seq<Node>, last: seq<Node>, rest: seq<Node>, next: Option<nat>)
    requires last != []
    ensures var grown := first + earlier + last + rest;
            var p := |first| + |earlier|;
            Same(grown[p := grown[p].(nextSibling := next)],
                 first + (earlier + last[0 := last[0].(nextSibling := next)]) + rest)
  {
    var linked := last[0].(nextSibling := next);
    UpdateFront(first + earlier + last, rest, |first| + |earlier|, linked);
    UpdateBack(first + earlier, last, |first| + |earlier|, linked);
    assert first + earlier + last[0 := linked] == first + (earlier + last[0 := linked]);
  }

  lemma NewChildLinked(v: Json, k: nat, at: nat, start: nat, wire: Wire)
    requires k < Arity(v)
    ensures var child := NewChild(v, k, at, start, wire);
            && |child| == NodeCount(Child(v, k))
            && Same(ChildLayout(v, k + 1, at, start, wire),
                    ChildLayout(v, k, at, start, wire) + child[0 := child[0].(nextSibling := NextOf(v, at, k))])
  {
    var child := NewChild(v, k, at, start, wire);
    assert ChildLayout(v, k + 1, at, start, wire)
        == ChildLayout(v, k, at, start, wire) + child[0 := child[0].(nextSibling := NextOf(v, at, k))];
  }

  /** The last child has no next sibling, so nothing is left to link. */
  lemma AppendedAll(v: Json, base: seq<Node>, start: nat, wire: Wire)
    requires base != []
    ensures Same(Appended(v, Arity(v), base, start, wire), WithChildren(v, base, start, wire))
  {
    var n, at := Arity(v), |base| - 1;
    if n == 0 {
      ConcatEmpty(base);
    } else {
      AppendedNodes(v, n, base, start, wire);
      Associate(base[at := base[at].(firstChild := Some(at + 1))],
                ChildLayout(v, n - 1, at, start, wire), NewChild(v, n - 1, at, start, wire));
    }
  }

  /** Once its children are linked and its length is set, the node of v and what follows are its layout. */
  lemma NodeCompleted(v: Json, key: Bytes, parent: Option<nat>, front: seq<Node>, before: Bytes,
                      filled: seq<Node>, raw: Bytes, wire: Wire)
    requires var own := Node(KindOf(v), None, None, parent, key, Text(v), |before|, 0);
             Same(filled, WithChildren(v, front + [own], |before|, wire))
    requires Same(raw, before + OnWire(wire, Encode(v)))
    ensures |before| <= |raw| && |front| < |filled|
    ensures Same(filled[|front| := filled[|front|].(rawLength := |raw| - |before|)],
                 front + Layout(v, key, parent, None, |front|, |before|, wire))
  {
    EncodeHasLength(v);
    var own := Node(KindOf(v), None, None, parent, key, Text(v), |before|, 0);
    var below := ChildLayout(v, Arity(v), |front|, |before|, wire);
    var parented := own.(firstChild := if Arity(v) == 0 then None else Some(|front| + 1));
    FillNode(front, own, parented, below, filled, |raw| - |before|);
    LayoutParts(v, key, parent, |front|, |before|, wire);
  }

  lemma LayoutParts(v: Json, key: Bytes, parent: Option<nat>, at: nat, start: nat, wire: Wire)
    ensures var own := Node(KindOf(v), if Arity(v) == 0 then None else Some(at + 1), None, parent, key, Text(v),
                            start, WireLength(wire, EncodedLength(v)));
            Same(Layout(v, key, parent, None, at, start, wire), [own] + ChildLayout(v, Arity(v), at, start, wire))
  {
  }

  lemma FillNode(front: seq<Node>, own: Node, parented: Node, below: seq<Node>, filled: seq<Node>, length: nat)
    requires parented == own || parented == own.(firstChild := Some(|front| + 1))
    requires var base := front + [own];
             Same(filled, (if parented == own then base
                           else base[|front| := base[|front|].(firstChild := Some(|front| + 1))]) + below)
    ensures |front| < |filled|
    ensures Same(filled[|front| := filled[|front|].(rawLength := length)],
                 front + ([parented.(rawLength := length)] + below))
  {
    assert (front + [own])[|front| := parented] == front + [parented];
    var done := parented.(rawLength := length);
    assert (front + [parented] + below)[|front| := done] == front + ([done] + below);
  }

  /** The buffer once what leads child k in is written. */
  ghost function Led(v: Json, k: nat, raw: Bytes, wire: Wire): Bytes
    requires k < Arity(v)
  {
    var separated := if k > 0 then raw + OnWire(wire, [COMMA]) else raw;
    if v.Array? then separated
    else separated + OnWire(wire, EncodeText(v.entries[k].key)) + OnWire(wire, [COLON])
  }

  lemma LedIsLead(v: Json, k: nat, raw: Bytes, wire: Wire)
    requires k < Arity(v)
    ensures Same(Led(v, k, raw, wire), raw + OnWire(wire, Lead(v, k)))
  {
    var comma := if k > 0 then [COMMA] else [];
    assert OnWire(wire, []) == [];
    ConcatEmpty(raw);
    if v.Array? {
      ConcatEmpty(comma);
    } else {
      var key := EncodeText(v.entries[k].key);
      WireConcat(raw, comma, key, [COLON], wire);
      Associate(comma, key, [COLON]);
    }
  }

  /** The buffer after the opening token and n children of v. */
  ghost function RawAfter(v: Json, n: nat, raw: Bytes, wire: Wire): Bytes
    requires n <= Arity(v)
    decreases v, n
  {
    if n == 0 then raw + OnWire(wire, [Opening(v)])
    else Led(v, n - 1, RawAfter(v, n - 1, raw, wire), wire) + OnWire(wire, Encode(Child(v, n - 1)))
  }

  lemma {:induction false} RawAfterIsEncoding(v: Json, n: nat, raw: Bytes, wire: Wire)
    requires n <= Arity(v)
    ensures Same(RawAfter(v, n, raw, wire), raw + OnWire(wire, [Opening(v)] + EncodeChildren(v, n)))
    decreases n
  {
    if n == 0 {
      ConcatEmpty([Opening(v)]);
    } else {
      RawAfterIsEncoding(v, n - 1, raw, wire);
      ChildEncoded(v, n - 1, raw, RawAfter(v, n - 1, raw, wire), wire);
    }
  }

  lemma ChildEncoded(v: Json, k: nat, raw: Bytes, now: Bytes, wire: Wire)
    requires k < Arity(v) && Same(now, raw + OnWire(wire, [Opening(v)] + EncodeChildren(v, k)))
    ensures Same(Led(v, k, now, wire) + OnWire(wire, Encode(Child(v, k))),
                 raw + OnWire(wire, [Opening(v)] + EncodeChildren(v, k + 1)))
  {
    LedIsLead(v, k, now, wire);
    WireConcat(raw, [Opening(v)] + EncodeChildren(v, k), Lead(v, k), Encode(Child(v, k)), wire);
    Reassociate([Opening(v)], EncodeChildren(v, k), Lead(v, k), Encode(Child(v, k)));
  }

  lemma RawAfterAll(v: Json, raw: Bytes, wire: Wire)
    requires v.Array? || v.Object?
    ensures Same(RawAfter(v, Arity(v), raw, wire) + OnWire(wire, [Closing(v)]), raw + OnWire(wire, Encode(v)))
  {
    RawAfterIsEncoding(v, Arity(v), raw, wire);
    var front := [Opening(v)] + EncodeChildren(v, Arity(v));
    WireConcat(raw, front, [Closing(v)], [], wire);
    ConcatEmpty(front + [Closing(v)]);
    ConcatEmpty(raw + OnWire(wire, front) + OnWire(wire, [Closing(v)]));
  }

  /** Where child k starts in the buffer. */
  lemma LedLength(v: Json, k: nat, raw: Bytes, wire: Wire)
    requires k < Arity(v)
    ensures |Led(v, k, RawAfter(v, k, raw, wire), wire)| == ChildStart(v, |raw|, k, wire)
  {
    LedIsLead(v, k, RawAfter(v, k, raw, wire), wire);
    RawAfterIsEncoding(v, k, raw, wire);
    EncodeChildrenHaveLength(v, k);
    LeadHasLength(v, k);
  }

  lemma Reassociate(a: Bytes, b: Bytes, c: Bytes, d: Bytes)
    ensures Same(a + b + c + d, a + (b + c + d))
  {
    assert a + b + c + d == a + (b + c + d);
  }

  lemma WireConcat(raw: Bytes, a: Bytes, b: Bytes, c: Bytes, wire: Wire)
    ensures Same(raw + OnWire(wire, a) + OnWire(wire, b) + OnWire(wire, c), raw + OnWire(wire, a + b + c))
  {
    Reassociate(raw, a, b, c);
    assert raw + OnWire(wire, a) + OnWire(wire, b) + OnWire(wire, c) == raw + OnWire(wire, a + b + c);
  }

  datatype Built = Built(nodes: seq<Node>, raw: Bytes, acquired: nat)

  /** What appending the contents of v after its own node comes to. */
  ghost predicate ContentsAppended(v: Json, wire: Wire, r: Result<(), JsonError>, before: Built, after: Built)
    requires before.nodes != []
  {
    match ChildVerdict(v, Arity(v), |before.nodes|, before.acquired)
    case Some(e) => r == Err(e)
    case None =>
      && r == Ok(())
      && Same(after.nodes, WithChildren(v, before.nodes, |before.raw|, wire))
      && Same(after.raw, before.raw + OnWire(wire, Encode(v)))
      && after.acquired == before.acquired + WeightBefore(v, Arity(v)) <= APP_JSON_MAX_BYTES
  }

  /** What appending v comes to: the limit that it exceeds first, or its layout and its encoding after what there was. */
  ghost predicate NodeAppended(v: Json, key: Bytes, parent: Option<nat>, wire: Wire, r: Result<nat, JsonError>,
                               before: Built, after: Built) {
    match Verdict(v, key, |before.nodes|, before.acquired)
    case Some(e) => r == Err(e)
    case None =>
      && r == Ok(|before.nodes|)
      && Same(after.nodes, before.nodes + Layout(v, key, parent, None, |before.nodes|, |before.raw|, wire))
      && Same(after.raw, before.raw + OnWire(wire, Encode(v)))
      && after.acquired == before.acquired + Weight(v, key) <= APP_JSON_MAX_BYTES
  }

  /** The node of v is there, and nothing below it yet. */
  ghost function Opened(v: Json, key: Bytes, parent: Option<nat>, before: Built): Built {
    Built(before.nodes + [Node(KindOf(v), None, None, parent, key, Text(v), |before.raw|, 0)], before.raw,
          before.acquired + OwnWeight(v, key))
  }

  /** The length of node `index` is set. */
  ghost function Measured(filled: Built, index: nat, start: nat): Built
    requires index < |filled.nodes| && start <= |filled.raw|
  {
    filled.(nodes := filled.nodes[index := filled.nodes[index].(rawLength := |filled.raw| - start)])
  }

  /** The limit that the node of v itself exceeds. */
  function OwnVerdict(v: Json, key: Bytes, count: nat, acquired: nat): Option<JsonError> {
    if count >= APP_JSON_MAX_NODES then Some(TreeTooLarge)
    else if acquired + OwnWeight(v, key) > APP_JSON_MAX_BYTES then Some(DecodedTooLarge)
    else None
  }

  lemma NodeFails(v: Json, key: Bytes, parent: Option<nat>, wire: Wire, before: Built, after: Built, e: JsonError)
    requires OwnVerdict(v, key, |before.nodes|, before.acquired) == Some(e)
    ensures NodeAppended(v, key, parent, wire, Err(e), before, after)
  {
  }

  lemma ContentsFail(v: Json, key: Bytes, parent: Option<nat>, wire: Wire, before: Built, filled: Built, e: JsonError)
    requires OwnVerdict(v, key, |before.nodes|, before.acquired) == None
    requires ContentsAppended(v, wire, Err(e), Opened(v, key, parent, before), filled)
    ensures NodeAppended(v, key, parent, wire, Err(e), before, filled)
  {
  }

  lemma ContentsComplete(v: Json, key: Bytes, parent: Option<nat>, wire: Wire, before: Built, filled: Built)
    requires OwnVerdict(v, key, |before.nodes|, before.acquired) == None
    requires ContentsAppended(v, wire, Ok(()), Opened(v, key, parent, before), filled)
    ensures |before.raw| <= |filled.raw| && |before.nodes| < |filled.nodes|
    ensures NodeAppended(v, key, parent, wire, Ok(|before.nodes|), before,
                         Measured(filled, |before.nodes|, |before.raw|))
  {
    NodeCompleted(v, key, parent, before.nodes, before.raw, filled.nodes, filled.raw, wire);
  }

  /** After the opening token and k children of v. */
  ghost function BuiltAt(v: Json, k: nat, before: Built, wire: Wire): Built
    requires k <= Arity(v) && before.nodes != []
  {
    Built(Appended(v, k, before.nodes, |before.raw|, wire), RawAfter(v, k, before.raw, wire),
          before.acquired + WeightBefore(v, k))
  }

  /** Child k written after what leads it in, appended, and linked. */
  ghost function WithChild(v: Json, k: nat, parent: nat, now: Built, previous: Option<nat>, wire: Wire): Built
    requires k < Arity(v) && parent < |now.nodes| && (previous.Some? ==> previous.value < |now.nodes|)
  {
    var child, key, led := Child(v, k), ChildKey(v, k), Led(v, k, now.raw, wire);
    var appended := now.nodes + Layout(child, key, Some(parent), None, |now.nodes|, |led|, wire);
    Built(Linked(appended, parent, previous, |now.nodes|), led + OnWire(wire, Encode(child)),
          now.acquired + Weight(child, key))
  }

  lemma NextNodes(v: Json, k: nat, base: seq<Node>, raw: Bytes, wire: Wire)
    requires k < Arity(v) && base != []
    ensures var at, nodes := |base| - 1, Appended(v, k, base, |raw|, wire);
            var start := |Led(v, k, RawAfter(v, k, raw, wire), wire)|;
            Same(Appended(v, k + 1, base, |raw|, wire),
                 Linked(nodes + Layout(Child(v, k), ChildKey(v, k), Some(at), None, |nodes|, start, wire),
                        at, PreviousChild(v, at, k), |nodes|))
  {
    LedLength(v, k, raw, wire);
    AppendedStep(v, k, base, |raw|, wire);
  }

  lemma NextBuilt(v: Json, k: nat, before: Built, now: Built, next: Built, wire: Wire)
    requires k < Arity(v) && before.nodes != []
    requires Same(now, BuiltAt(v, k, before, wire)) && Same(next, BuiltAt(v, k + 1, before, wire))
    ensures Follows(v, k, before, now, next, wire)
  {
    NextNodes(v, k, before.nodes, before.raw, wire);
  }

  lemma VerdictStep(v: Json, k: nat, count: nat, acquired: nat, nodes: nat, bytes: nat)
    requires k < Arity(v) && ChildVerdict(v, k, count, acquired) == None
    requires nodes == count + NodesBefore(v, k) && bytes == acquired + WeightBefore(v, k)
    ensures ChildVerdict(v, k + 1, count, acquired) == Verdict(Child(v, k), ChildKey(v, k), nodes, bytes)
  {
  }

  lemma ChildrenDone(v: Json, n: nat, before: Built, now: Built, wire: Wire)
    requires n <= Arity(v) && before.nodes != [] && (v.Array? || v.Object?)
    requires Same(now, BuiltAt(v, n, before, wire))
    ensures n == Arity(v) ==> AllBuilt(v, before, now, wire)
  {
    AppendedAll(v, before.nodes, |before.raw|, wire);
    RawAfterAll(v, before.raw, wire);
  }

  /** The child linked by the turn before turn k. */
  ghost function PreviousTurn(turns: seq<Built>, k: nat): Option<nat>
    requires k < |turns|
  {
    if k == 0 then None else Some(|turns[k - 1].nodes|)
  }

  /** Turn k of the loop over the children of v: either child k is appended, or it exceeds a limit;
      after the last turn the contents are complete but for the closing token. */
  ghost predicate Turn(v: Json, k: nat, before: Built, turns: seq<Built>, wire: Wire)
    requires before.nodes != [] && k < |turns| <= Arity(v) + 1
  {
    && |before.nodes| <= |turns[k].nodes| && turns[k].acquired <= APP_JSON_MAX_BYTES
    && (k > 0 ==> |turns[k - 1].nodes| < |turns[k].nodes|)
    && if k == Arity(v) then
         AllBuilt(v, before, turns[k], wire) && ChildVerdict(v, Arity(v), |before.nodes|, before.acquired) == None
       else if k + 1 == |turns| then FailingTurn(v, k, before, turns[k])
       else NextTurn(v, k, |before.nodes| - 1, turns[k], turns[k + 1], PreviousTurn(turns, k), wire)
  }

  /** Appending the contents is done but for the closing token. */
  ghost predicate AllBuilt(v: Json, before: Built, now: Built, wire: Wire)
    requires before.nodes != []
  {
    && Same(now.nodes, WithChildren(v, before.nodes, |before.raw|, wire))
    && Same(now.raw + OnWire(wire, [Closing(v)]), before.raw + OnWire(wire, Encode(v)))
    && now.acquired == before.acquired + WeightBefore(v, Arity(v))
  }

  ghost predicate FailingTurn(v: Json, k: nat, before: Built, now: Built)
    requires k < Arity(v)
  {
    var verdict := Verdict(Child(v, k), ChildKey(v, k), |now.nodes|, now.acquired);
    verdict.Some? && verdict == ChildVerdict(v, Arity(v), |before.nodes|, before.acquired)
  }

  ghost predicate NextTurn(v: Json, k: nat, parent: nat, now: Built, next: Built, previous: Option<nat>, wire: Wire)
    requires k < Arity(v) && parent < |now.nodes| && (previous.Some? ==> previous.value < |now.nodes|)
  {
    && Verdict(Child(v, k), ChildKey(v, k), |now.nodes|, now.acquired) == None
    && Same(next, WithChild(v, k, parent, now, previous, wire))
  }

  /** How much there is after k children. */
  ghost predicate HasSize(v: Json, k: nat, before: Built, now: Built)
    requires k <= Arity(v)
  {
    && |now.nodes| == |before.nodes| + NodesBefore(v, k)
    && now.acquired == before.acquired + WeightBefore(v, k)
  }

  /** The states that the loop over the children of v passes through, up to the first limit exceeded. */
  lemma Turns(v: Json, before: Built, wire: Wire) returns (turns: seq<Built>)
    requires (v.Array? || v.Object?) && before.nodes != [] && before.acquired <= APP_JSON_MAX_BYTES
    ensures 0 < |turns| <= Arity(v) + 1
    ensures Same(turns[0], before.(raw := before.raw + OnWire(wire, [Opening(v)])))
    ensures forall k | 0 <= k < |turns| :: Turn(v, k, before, turns, wire)
  {
    var n := FirstExcess(v, |before.nodes|, before.acquired);
    turns := States(v, n, before, wire);
    forall k | 0 <= k < |turns|
      ensures Turn(v, k, before, turns, wire)
    {
      TurnHolds(v, k, n, before, turns, wire);
    }
  }

  lemma States(v: Json, n: nat, before: Built, wire: Wire) returns (turns: seq<Built>)
    requires (v.Array? || v.Object?) && n <= Arity(v) && before.nodes != []
    ensures |turns| == n + 1
    ensures forall k | 0 <= k <= n :: HasSize(v, k, before, turns[k])
    ensures forall k | 0 <= k < n :: Follows(v, k, before, turns[k], turns[k + 1], wire)
    ensures Same(turns[0], before.(raw := before.raw + OnWire(wire, [Opening(v)])))
    ensures n == Arity(v) ==> AllBuilt(v, before, turns[n], wire)
  {
    turns := seq(n + 1, k requires 0 <= k <= n => BuiltAt(v, k, before, wire));
    StatesHaveSize(v, n, before, turns, wire);
    StatesFollow(v, n, before, turns, wire);
    ChildrenDone(v, n, before, turns[n], wire);
  }

  lemma StatesHaveSize(v: Json, n: nat, before: Built, turns: seq<Built>, wire: Wire)
    requires n <= Arity(v) && before.nodes != [] && |turns| == n + 1
    requires forall k | 0 <= k <= n :: Same(turns[k], BuiltAt(v, k, before, wire))
    ensures forall k | 0 <= k <= n :: HasSize(v, k, before, turns[k])
  {
    forall k | 0 <= k <= n
      ensures HasSize(v, k, before, turns[k])
    {
      BuiltSize(v, k, before, turns[k], wire);
    }
  }

  lemma StatesFollow(v: Json, n: nat, before: Built, turns: seq<Built>, wire: Wire)
    requires n <= Arity(v) && before.nodes != [] && |turns| == n + 1
    requires forall k | 0 <= k <= n :: Same(turns[k], BuiltAt(v, k, before, wire))
    ensures forall k | 0 <= k < n :: Follows(v, k, before, turns[k], turns[k + 1], wire)
  {
    forall k | 0 <= k < n
      ensures Follows(v, k, before, turns[k], turns[k + 1], wire)
    {
      NextBuilt(v, k, before, turns[k], turns[k + 1], wire);
    }
  }

  /** `next` is `now` with child k added. */
  ghost predicate Follows(v: Json, k: nat, before: Built, now: Built, next: Built, wire: Wire)
    requires k < Arity(v) && before.nodes != []
  {
    var parent, previous := |before.nodes| - 1, PreviousChild(v, |before.nodes| - 1, k);
    && parent < |now.nodes| && (previous.Some? ==> previous.value < |now.nodes|)
    && Same(next, WithChild(v, k, parent, now, previous, wire))
  }

  lemma BuiltSize(v: Json, k: nat, before: Built, now: Built, wire: Wire)
    requires k <= Arity(v) && before.nodes != [] && Same(now, BuiltAt(v, k, before, wire))
    ensures HasSize(v, k, before, now)
  {
  }

  lemma TurnHolds(v: Json, k: nat, n: nat, before: Built, turns: seq<Built>, wire: Wire)
    requires before.nodes != [] && before.acquired <= APP_JSON_MAX_BYTES
    requires k <= n <= Arity(v) && IsFirstExcess(v, n, |before.nodes|, before.acquired)
    requires |turns| == n + 1 && HasSize(v, k, before, turns[k])
    requires k > 0 ==> HasSize(v, k - 1, before, turns[k - 1])
    requires k < n ==> Follows(v, k, before, turns[k], turns[k + 1], wire)
    requires n == Arity(v) ==> AllBuilt(v, before, turns[n], wire)
    ensures Turn(v, k, before, turns, wire)
  {
    WithinBefore(v, k, n, |before.nodes|, before.acquired);
    if k < n {
      TurnVerdict(v, k, n, |before.nodes|, before.acquired, |turns[k].nodes|, turns[k].acquired);
      PreviousIs(v, k, before, turns);
      TurnFollows(v, k, before, turns[k], turns[k + 1], PreviousTurn(turns, k), wire);
    } else if k < Arity(v) {
      LastTurnFails(v, k, before, turns[k]);
    }
  }

  lemma PreviousIs(v: Json, k: nat, before: Built, turns: seq<Built>)
    requires before.nodes != [] && k < |turns| && k < Arity(v)
    requires k > 0 ==> HasSize(v, k - 1, before, turns[k - 1])
    ensures PreviousTurn(turns, k) == PreviousChild(v, |before.nodes| - 1, k)
  {
  }

  lemma TurnFollows(v: Json, k: nat, before: Built, now: Built, next: Built, previous: Option<nat>, wire: Wire)
    requires before.nodes != [] && k < Arity(v) && previous == PreviousChild(v, |before.nodes| - 1, k)
    requires Follows(v, k, before, now, next, wire) && Verdict(Child(v, k), ChildKey(v, k), |now.nodes|, now.acquired) == None
    ensures |before.nodes| - 1 < |now.nodes| && (previous.Some? ==> previous.value < |now.nodes|)
    ensures NextTurn(v, k, |before.nodes| - 1, now, next, previous, wire)
  {
  }

  /** The limit that stops a turn is the one that appending the contents exceeds first. */
  lemma TurnFails(v: Json, k: nat, before: Built, turns: seq<Built>, wire: Wire, e: JsonError, after: Built)
    requires before.nodes != [] && k < |turns| <= Arity(v) + 1 && k < Arity(v) && Turn(v, k, before, turns, wire)
    requires Verdict(Child(v, k), ChildKey(v, k), |turns[k].nodes|, turns[k].acquired) == Some(e)
    ensures ContentsAppended(v, wire, Err(e), before, after)
  {
  }

  /** After the last turn and the closing token the contents are complete. */
  lemma TurnsDone(v: Json, before: Built, turns: seq<Built>, wire: Wire, after: Built)
    requires before.nodes != [] && Arity(v) < |turns| <= Arity(v) + 1 && Turn(v, Arity(v), before, turns, wire)
    requires Same(after, turns[Arity(v)].(raw := turns[Arity(v)].raw + OnWire(wire, [Closing(v)])))
    ensures ContentsAppended(v, wire, Ok(()), before, after)
  {
  }

  lemma LastTurnFails(v: Json, n: nat, before: Built, now: Built)
    requires before.acquired <= APP_JSON_MAX_BYTES && n < Arity(v)
    requires IsFirstExcess(v, n, |before.nodes|, before.acquired) && HasSize(v, n, before, now)
    ensures FailingTurn(v, n, before, now)
  {
    TurnVerdict(v, n, n, |before.nodes|, before.acquired, |now.nodes|, now.acquired);
  }

  lemma TurnVerdict(v: Json, k: nat, n: nat, count: nat, acquired: nat, nodes: nat, bytes: nat)
    requires k <= n <= Arity(v) && k < Arity(v) && acquired <= APP_JSON_MAX_BYTES
    requires IsFirstExcess(v, n, count, acquired)
    requires nodes == count + NodesBefore(v, k) && bytes == acquired + WeightBefore(v, k)
    ensures var verdict := Verdict(Child(v, k), ChildKey(v, k), nodes, bytes);
            if k < n then verdict == None
            else verdict.Some? && verdict == ChildVerdict(v, Arity(v), count, acquired)
  {
    WithinBefore(v, k, n, count, acquired);
    VerdictStep(v, k, count, acquired, nodes, bytes);
    if k < n {
      WithinBefore(v, k + 1, n, count, acquired);
    } else {
      FirstVerdictStands(v, k + 1, Arity(v), count, acquired);
    }
  }

  /** The first n children exceed no limit, and child n does if there is one. */
  ghost predicate IsFirstExcess(v: Json, n: nat, count: nat, acquired: nat)
    requires n <= Arity(v)
  {
    && ChildVerdict(v, n, count, acquired) == None
    && (n < Arity(v) ==> ChildVerdict(v, n + 1, count, acquired).Some?)
  }

  lemma FirstExcess(v: Json, count: nat, acquired: nat) returns (n: nat)
    ensures n <= Arity(v) && IsFirstExcess(v, n, count, acquired)
  {
    n := Arity(v);
    while n > 0 && ChildVerdict(v, n, count, acquired).Some?
      invariant n <= Arity(v)
      invariant n < Arity(v) ==> ChildVerdict(v, n + 1, count, acquired).Some?
    {
      n := n - 1;
    }
  }

  /** A limit exceeded among the first children is the verdict on all of them. */
  lemma {:induction false} FirstVerdictStands(v: Json, k: nat, n: nat, count: nat, acquired: nat)
    requires k <= n <= Arity(v) && ChildVerdict(v, k, count, acquired).Some?
    ensures ChildVerdict(v, n, count, acquired) == ChildVerdict(v, k, count, acquired)
    decreases n
  {
    if k < n {
      FirstVerdictStands(v, k, n - 1, count, acquired);
    }
  }

  lemma WithinBefore(v: Json, k: nat, n: nat, count: nat, acquired: nat)
    requires k <= n <= Arity(v) && ChildVerdict(v, n, count, acquired) == None && acquired <= APP_JSON_MAX_BYTES
    ensures ChildVerdict(v, k, count, acquired) == None
    ensures acquired + WeightBefore(v, k) <= APP_JSON_MAX_BYTES
  {
    if ChildVerdict(v, k, count, acquired).Some? {
      FirstVerdictStands(v, k, n, count, acquired);
    }
    ChildrenWithin(v, k, count, acquired);
  }

  /** What exceeds no limit leaves the decoded bytes within theirs. */
  lemma {:induction false} Within(v: Json, key: Bytes, count: nat, acquired: nat)
    requires Verdict(v, key, count, acquired) == None
    ensures acquired + Weight(v, key) <= APP_JSON_MAX_BYTES
    decreases v, Arity(v) + 1
  {
    ChildrenWithin(v, Arity(v), count + 1, acquired + OwnWeight(v, key));
  }

  lemma {:induction false} ChildrenWithin(v: Json, n: nat, count: nat, acquired: nat)
    requires n <= Arity(v) && ChildVerdict(v, n, count, acquired) == None && acquired <= APP_JSON_MAX_BYTES
    ensures acquired + WeightBefore(v, n) <= APP_JSON_MAX_BYTES
    decreases v, n
  {
    if n > 0 {
      Within(Child(v, n - 1), ChildKey(v, n - 1), count + NodesBefore(v, n - 1), acquired + WeightBefore(v, n - 1));
    }
  }

  class JsonTree {
    var nodes: seq<Node>
    var raw: Bytes
    var acquiredBytes: nat

    ghost function State(): Built
      reads this
    {
      Built(nodes, raw, acquiredBytes)
    }

    constructor ()
      ensures nodes == [] && raw == [] && acquiredBytes == 0
    {
      nodes, raw, acquiredBytes := [], [], 0;
    }

    /** Checks both limits and pushes the node of v. */
    method PushJsonNode(v: Json, key: Bytes, parent: Option<nat>) returns (r: Result<(), JsonError>)
      modifies this
      ensures match OwnVerdict(v, key, old(|nodes|), old(acquiredBytes))
              case Some(e) => r == Err(e)
              case None => r == Ok(()) && Same(State(), Opened(v, key, parent, old(State())))
    {
      if |nodes| >= APP_JSON_MAX_NODES {
        return Err(TreeTooLarge);
      }
      var sum := CheckedAdd(acquiredBytes, |key|);
      if sum.Some? {
        sum := CheckedAdd(sum.value, |Text(v)|);
      }
      if sum.None? || sum.value > APP_JSON_MAX_BYTES {
        return Err(DecodedTooLarge);
      }
      acquiredBytes := sum.value;
      nodes := nodes + [Node(KindOf(v), None, None, parent, key, Text(v), |raw|, 0)];
      r := Ok(());
    }

    /** Appends v and everything below it; on failure the tree is abandoned by every caller. */
    method AppendJsonNode(v: Json, key: Bytes, parent: Option<nat>, wire: Wire)
      returns (r: Result<nat, JsonError>)
      requires acquiredBytes <= APP_JSON_MAX_BYTES
      modifies this
      ensures NodeAppended(v, key, parent, wire, r, old(State()), State())
      decreases v, Arity(v) + 3
    {
      var index, start := |nodes|, |raw|;
      var pushed := PushJsonNode(v, key, parent);
      if pushed.Err? {
        NodeFails(v, key, parent, wire, old(State()), State(), pushed.error);
        return Err(pushed.error);
      }
      var contents := AppendJsonContents(v, index, wire);
      if contents.Err? {
        ContentsFail(v, key, parent, wire, old(State()), State(), contents.error);
        return Err(contents.error);
      }
      ContentsComplete(v, key, parent, wire, old(State()), State());
      nodes := nodes[index := nodes[index].(rawLength := |raw| - start)];
      r := Ok(index);
    }

    /** Appends what is inside v, whose own node is the last one. */
    method AppendJsonContents(v: Json, index: nat, wire: Wire) returns (r: Result<(), JsonError>)
      requires |nodes| == index + 1 && nodes[index].firstChild == None
      requires acquiredBytes <= APP_JSON_MAX_BYTES
      modifies this
      ensures ContentsAppended(v, wire, r, old(State()), State())
      decreases v, Arity(v) + 2
    {
      match v {
        case Array(_) =>
          r := AppendJsonArray(v, index, wire);
        case Object(_) =>
          r := AppendJsonObject(v, index, wire);
        case _ =>
          if wire == Encoded {
            raw := raw + Encode(v);
          }
          ConcatEmpty(old(nodes));
          ConcatEmpty(old(raw));
          r := Ok(());
      }
    }

    method WriteJsonToken(wire: Wire, token: byte)
      modifies this`raw
      ensures Same(raw, old(raw) + OnWire(wire, [token]))
    {
      ConcatEmpty(raw);
      if wire == Encoded {
        raw := raw + [token];
      }
    }

    /** What leads child k in: a comma after an earlier child, and the key of an object entry. */
    method WriteJsonLead(ghost v: Json, ghost k: nat, previous: Option<nat>, key: Option<Bytes>, wire: Wire)
      requires k < Arity(v) && (previous == None <==> k == 0)
      requires if v.Array? then key == None else v.Object? && key == Some(v.entries[k].key)
      modifies this`raw
      ensures Same(raw, Led(v, k, old(raw), wire))
    {
      if previous.Some? {
        WriteJsonToken(wire, COMMA);
      }
      if key.Some? {
        ConcatEmpty(raw);
        if wire == Encoded {
          raw := raw + EncodeText(key.value);
          raw := raw + [COLON];
        }
      }
    }

    method AppendJsonArray(v: Json, index: nat, wire: Wire) returns (r: Result<(), JsonError>)
      requires v.Array?
      requires |nodes| == index + 1 && nodes[index].firstChild == None
      requires acquiredBytes <= APP_JSON_MAX_BYTES
      modifies this
      ensures ContentsAppended(v, wire, r, old(State()), State())
      decreases v, Arity(v) + 1
    {
      ghost var before := State();
      ghost var turns := Turns(v, before, wire);
      WriteJsonToken(wire, OPEN_ARRAY);
      var previous := None;
      for k := 0 to |v.items|
        invariant k < |turns| && Same(State(), turns[k]) && previous == PreviousTurn(turns, k)
      {
        assert Turn(v, k, before, turns, wire);
        var child, latest := AppendChild(v, k, v.items[k], None, index, previous, before, turns, wire);
        if child.Err? {
          return Err(child.error);
        }
        previous := latest;
      }
      WriteJsonToken(wire, CLOSE_ARRAY);
      TurnsDone(v, before, turns, wire, State());
      r := Ok(());
    }

    method AppendJsonObject(v: Json, index: nat, wire: Wire) returns (r: Result<(), JsonError>)
      requires v.Object?
      requires |nodes| == index + 1 && nodes[index].firstChild == None
      requires acquiredBytes <= APP_JSON_MAX_BYTES
      modifies this
      ensures ContentsAppended(v, wire, r, old(State()), State())
      decreases v, Arity(v) + 1
    {
      ghost var before := State();
      ghost var turns := Turns(v, before, wire);
      WriteJsonToken(wire, OPEN_OBJECT);
      var previous := None;
      for k := 0 to |v.entries|
        invariant k < |turns| && Same(State(), turns[k]) && previous == PreviousTurn(turns, k)
      {
        var Entry(key, value) := v.entries[k];
        assert Turn(v, k, before, turns, wire);
        var child, latest := AppendChild(v, k, value, Some(key), index, previous, before, turns, wire);
        if child.Err? {
          return Err(child.error);
        }
        previous := latest;
      }
      WriteJsonToken(wire, CLOSE_OBJECT);
      TurnsDone(v, before, turns, wire, State());
      r := Ok(());
    }

    /** One turn of either loop: what leads the child in, the child, and its link. */
    method AppendChild(ghost v: Json, ghost k: nat, child: Json, key: Option<Bytes>, index: nat, previous: Option<nat>,
                       ghost before: Built, ghost turns: seq<Built>, wire: Wire)
      returns (r: Result<(), JsonError>, latest: Option<nat>)
      requires k < Arity(v) && child == Child(v, k)
      requires if v.Array? then key == None else v.Object? && key == Some(v.entries[k].key)
      requires before.nodes != [] && index == |before.nodes| - 1 && k < |turns| <= Arity(v) + 1
      requires Turn(v, k, before, turns, wire) && Same(State(), turns[k]) && previous == PreviousTurn(turns, k)
      modifies this
      ensures match r
              case Err(e) => ContentsAppended(v, wire, Err(e), before, State())
              case Ok(_) => k + 1 < |turns| && Same(State(), turns[k + 1]) && latest == PreviousTurn(turns, k + 1)
      decreases v, Arity(v), 1
    {
      WriteJsonLead(v, k, previous, key, wire);
      r, latest := AppendLinkedChild(v, k, child, if key.Some? then key.value else [], index, previous, turns[k], wire);
      if r.Err? {
        TurnFails(v, k, before, turns, wire, r.error, State());
      }
    }

    /** How either loop ends a turn: child k is appended after what leads it in, and linked. */
    method AppendLinkedChild(ghost v: Json, ghost k: nat, child: Json, key: Bytes, index: nat, previous: Option<nat>,
                             ghost now: Built, wire: Wire)
      returns (r: Result<(), JsonError>, latest: Option<nat>)
      requires k < Arity(v) && child == Child(v, k) && key == ChildKey(v, k)
      requires index < |now.nodes| && (previous.Some? ==> previous.value < |now.nodes|)
      requires Same(State(), now.(raw := Led(v, k, now.raw, wire))) && now.acquired <= APP_JSON_MAX_BYTES
      modifies this
      ensures match Verdict(child, key, |now.nodes|, now.acquired)
              case Some(e) => r == Err(e)
              case None =>
                && r == Ok(()) && latest == Some(|now.nodes|)
                && Same(State(), WithChild(v, k, index, now, previous, wire))
      decreases v, Arity(v), 0
    {
      var appended := AppendJsonNode(child, key, Some(index), wire);
      if appended.Err? {
        return Err(appended.error), previous;
      }
      latest := LinkJsonNode(index, previous, appended.value);
      r := Ok(());
    }

    /** Links `child` after the previous sibling, or as the first child of `parent`. */
    method LinkJsonNode(parent: nat, previous: Option<nat>, child: nat) returns (latest: Option<nat>)
      requires parent < |nodes| && (previous.Some? ==> previous.value < |nodes|)
      modifies this`nodes
      ensures latest == Some(child)
      ensures Same(nodes, Linked(old(nodes), parent, previous, child))
    {
      if previous.Some? {
        nodes := nodes[previous.value := nodes[previous.value].(nextSibling := Some(child))];
      } else {
        nodes := nodes[parent := nodes[parent].(firstChild := Some(child))];
      }
      latest := Some(child);
    }
  }

  /** The first limit that acquiring v exceeds: the encoded length is looked at once the tree is complete. */
  function Acceptance(v: Json, wire: Wire): Option<JsonError> {
    match Verdict(v, [], 0, 0)
    case Some(e) => Some(e)
    case None => if WireLength(wire, EncodedLength(v)) > APP_JSON_MAX_BYTES then Some(EncodedTooLarge) else None
  }

  method AcquireJsonTree(v: Json, wire: Wire) returns (tree: JsonTree, r: Result<(), JsonError>)
    ensures fresh(tree)
    ensures match Acceptance(v, wire)
            case Some(e) => r == Err(e)
            case None =>
              && r == Ok(())
              && tree.nodes == Layout(v, [], None, None, 0, 0, wire)
              && tree.raw == OnWire(wire, Encode(v))
  {
    tree := new JsonTree();
    EncodeHasLength(v);
    var root := tree.AppendJsonNode(v, [], None, wire);
    if root.Err? {
      return tree, Err(root.error);
    }
    if |tree.raw| > APP_JSON_MAX_BYTES {
      return tree, Err(EncodedTooLarge);
    }
    r := Ok(());
  }
}
